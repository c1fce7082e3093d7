/** What the transmit path promises, over every run of the machine. */
module TxTheorems {
  import opened TxProtocol
  import opened TxInvariant
  import opened TxSteps
  import opened TxBooks

  // ---------------------------------------------------------------- runs

  predicate Runs(s: State, es: seq<Step>)
    decreases |es|
  {
    es == [] || (Enabled(s, es[0]) && Runs(Apply(s, es[0]), es[1..]))
  }

  function Final(s: State, es: seq<Step>): State
    requires Runs(s, es)
    decreases |es|
  {
    if es == [] then s else Final(Apply(s, es[0]), es[1..])
  }

  ghost predicate Reaches(s: State, t: State) {
    exists es :: Runs(s, es) && Final(s, es) == t
  }

  /** Nothing in flight, nobody running, every account at zero. */
  lemma IdleInv(s: State)
    requires s.win == [] && s.x.XIdle? && s.n.NIdle? && s.c.CIdle? && s.phase.Down? && !s.owed && s.stopped
    requires s.reclaimed == 0 && s.txFailed == 0 && s.b == Books(0, 0, 0, 0, 0, 0, 0, 0, 0, 0, 0)
    ensures Inv(s) && Open(s) && Awaited(s) && WakesFree(s)
  {
  }

  lemma InitInv()
    ensures Inv(INIT) && Open(INIT) && Awaited(INIT) && WakesFree(INIT)
  {
    IdleInv(INIT);
  }

  lemma {:induction false} RunKeeps(s: State, es: seq<Step>)
    requires Inv(s) && Runs(s, es)
    ensures Inv(Final(s, es))
    decreases |es|
  {
    if es != [] {
      StepKeeps(s, es[0]);
      RunKeeps(Apply(s, es[0]), es[1..]);
    }
  }

  lemma ReachableInv(s: State)
    requires Reaches(INIT, s)
    ensures Inv(s)
  {
    var es :| Runs(INIT, es) && Final(INIT, es) == s;
    InitInv();
    RunKeeps(INIT, es);
  }

  /** The machine blocks no access the driver would make: an actor between its first and
      last access can always take the next one. */
  lemma NoStepBlocked(s: State, ok: bool, timeout: bool, reported: nat)
    requires Inv(s)
    ensures Enabled(s, XmitStep(ok)) <==> !s.x.XIdle?
    ensures Enabled(s, NapiStep) <==> !s.n.NIdle? || s.phase.Up?
    ensures Enabled(s, CbStep) <==> !s.c.CIdle?
    ensures s.phase.Drain? && !s.phase.pc.DReturn? && !s.phase.pc.DWait? ==> Enabled(s, DrainStep(timeout, reported))
    ensures Enabled(s, Restart) <==> s.phase.Down? && s.b.macSent == s.b.moved
  {
  }

  // ------------------------------------------------ safety and conservation

  /** At most 64 frames are in flight; each slot in flight was marked done at most
      once since it was published, and is marked done exactly when done is set; and
      whenever xmit writes a slot, that slot is outside what NAPI may still read. */
  lemma RingSafety(s: State)
    requires Reaches(INIT, s)
    ensures |s.win| <= 64
    ensures forall i :: 0 <= i < |s.win| ==> s.win[i].marks == if s.win[i].done then 1 else 0
    ensures s.x.XFill? || s.x.XPublish? ==> |s.win| < 64
    ensures Taken(s.n) <= |s.win| && forall i :: 0 <= i < Taken(s.n) ==> s.win[i].done
  {
    ReachableInv(s);
    assert forall i :: 0 <= i < |s.win| ==> SlotOk(s.win[i], Held(s, i), s.gate);
  }

  /** No frame and no byte is lost from the accounts: a frame the driver took is
      dropped, failed, sent, lost to a restart, in flight, or in xmit's hands. */
  lemma Conservation(s: State)
    requires Reaches(INIT, s)
    ensures s.b.accepted == s.b.dropped + s.b.errors + s.b.sent + s.b.discarded + |s.win| - Taken(s.n) + Hold(s.x)
    ensures s.x.XIdle? && s.n.NIdle? ==>
      && s.b.accepted == s.b.dropped + s.b.errors + s.b.sent + s.b.discarded + |s.win|
      && s.b.bqlSent == s.b.bqlDone + Sum(Bytes, s.win)
  {
    ReachableInv(s);
    assert s.win[0..] == s.win;
  }

  /** A slot done with an error, or such a slot already reclaimed, is never seen
      without reset_pending. */
  lemma FailuresBehindGate(s: State)
    requires Reaches(INIT, s)
    ensures forall i :: 0 <= i < |s.win| && s.win[i].done && s.win[i].failed ==> s.gate
    ensures s.b.failDone > 0 && !s.phase.Down? ==> s.gate
  {
    ReachableInv(s);
    assert forall i :: 0 <= i < |s.win| ==> SlotOk(s.win[i], Held(s, i), s.gate);
  }

  predicate NoRestart(es: seq<Step>) { forall e :: e in es ==> !e.Restart? }

  /** Where an xmit call that began behind the gate can be. */
  predicate Shut(s: State) {
    s.gate && (s.x.XIdle? || s.x.XFree? || s.x.XBusy? || s.x.XGate? || s.x.XFlush?)
  }

  lemma ShutByXmit(s: State, e: Step)
    requires Shut(s) && Enabled(s, e) && (e.XmitStep? || ByOthers(e)) && !e.Restart?
    ensures Shut(Apply(s, e)) && Published(Apply(s, e)) == Published(s)
  {
  }

  lemma ShutByRest(s: State, e: Step)
    requires Shut(s) && Enabled(s, e) && !e.XmitStep? && !ByOthers(e)
    ensures Shut(Apply(s, e)) && Published(Apply(s, e)) == Published(s)
  {
    if e.DrainStep? { DrainWindow(s, e); DrainCompletesNone(s, e); }
    else if e.NapiStep? && !s.n.NRelease? { NapiReads(s, e); }
  }

  /** From a moment with the gate up and xmit between calls until the next rebuild,
      no call publishes or submits anything, however the actors interleave. */
  lemma {:induction false} GateShutsXmit(s: State, es: seq<Step>)
    requires Shut(s) && Runs(s, es) && NoRestart(es)
    ensures Shut(Final(s, es)) && Published(Final(s, es)) == Published(s)
    decreases |es|
  {
    if es != [] {
      assert es[0] in es;
      if es[0].XmitStep? || ByOthers(es[0]) { ShutByXmit(s, es[0]); } else { ShutByRest(s, es[0]); }
      assert forall e :: e in es[1..] ==> e in es;
      GateShutsXmit(Apply(s, es[0]), es[1..]);
    }
  }

  /** A return without xmit_more leaves no submitted descriptor unissued. */
  lemma NothingUnissued(s: State)
    requires Reaches(INIT, s) && s.x.XIdle? && !s.more
    ensures forall i :: 0 <= i < |s.win| ==> !s.win[i].desc.Pending?
  {
    ReachableInv(s);
  }

  // ------------------------------------------------ the drain

  /** When emz_tx_drain returns without doubt, every frame the DMA handed on since
      up has left the MAC, and every frame published was handed on or failed. */
  lemma DrainExact(s: State)
    requires Reaches(INIT, s) && s.phase == Drain(DReturn(true))
    ensures s.b.macSent == s.b.moved
    ensures Published(s) == s.b.moved + s.txFailed
    ensures s.c.CIdle? && forall i :: 0 <= i < |s.win| ==> s.win[i].done
  {
    ReachableInv(s);
    SentIsMoved(s);
  }

  /** The drain's comparison passes exactly when the count it read covers every
      frame handed on. */
  lemma DrainDecides(s: State, reported: nat, timeout: bool)
    requires Reaches(INIT, s) && s.phase.Drain? && s.phase.pc.DWait? && Enabled(s, DrainStep(timeout, reported))
    ensures Draining(s, timeout, reported).phase == Drain(DReturn(true)) <==> reported == s.b.macSent == s.b.moved
  {
    ReachableInv(s);
    SentIsMoved(s);
  }

  // ------------------------------------------------ wakeups

  /** NAPI wakes a stopped queue whose ring has filled again since its test. */
  predicate StaleWake(s: State, e: Step) {
    e.NapiStep? && s.n.NWake? && s.stopped && |s.win| == TX_RING
  }

  /** An awake queue with xmit between calls, or past its stop, has a free slot,
      and the BUSY branch is not taken. */
  predicate Open(s: State) {
    && !s.x.XBusy?
    && (!s.stopped && (s.x.XIdle? || s.x.XFree? || s.x.XIssue? || s.x.XRecheck?) ==> |s.win| < TX_RING)
  }

  lemma OpenByEarly(s: State, e: Step)
    requires XmitInv(s) && SlotsInv(s) && Open(s) && Enabled(s, e) && e.XmitStep? && Early(s.x)
    ensures Open(Apply(s, e))
  {
  }

  lemma OpenByLate(s: State, e: Step)
    requires XmitInv(s) && SlotsInv(s) && Open(s) && Enabled(s, e) && e.XmitStep? && Late(s.x)
    ensures Open(Apply(s, e))
  {
  }

  lemma OpenByWrite(s: State, e: Step)
    requires XmitInv(s) && Open(s) && Enabled(s, e) && e.XmitStep? && !Early(s.x) && !Late(s.x)
    ensures Open(Apply(s, e))
  {
  }

  lemma OpenByNapi(s: State, e: Step)
    requires XmitInv(s) && SlotsInv(s) && NapiInv(s) && Open(s) && Enabled(s, e) && e.NapiStep?
    ensures Open(Apply(s, e)) <==> !StaleWake(s, e)
  {
    if !s.n.NRelease? { NapiReads(s, e); }
  }

  lemma OpenByProvider(s: State, e: Step)
    requires Open(s) && Enabled(s, e) && ByProvider(e)
    ensures Open(Apply(s, e))
  {
  }

  lemma OpenByRest(s: State, e: Step)
    requires Open(s) && DrainInv(s) && Enabled(s, e) && (ByOthers(e) || e.DrainStep?)
    ensures Open(Apply(s, e))
  {
    if e.DrainStep? { DrainWindow(s, e); }
  }

  lemma OpenStep(s: State, e: Step)
    requires Inv(s) && Open(s) && Enabled(s, e)
    ensures Open(Apply(s, e)) <==> !StaleWake(s, e)
  {
    if e.XmitStep? {
      if Early(s.x) { OpenByEarly(s, e); } else if Late(s.x) { OpenByLate(s, e); } else { OpenByWrite(s, e); }
    } else if e.NapiStep? { OpenByNapi(s, e); }
    else if ByProvider(e) { OpenByProvider(s, e); } else { OpenByRest(s, e); }
  }

  predicate AlwaysOpen(s: State, es: seq<Step>)
    requires Runs(s, es)
    decreases |es|
  {
    Open(s) && (es != [] ==> AlwaysOpen(Apply(s, es[0]), es[1..]))
  }

  predicate NeverStale(s: State, es: seq<Step>)
    requires Runs(s, es)
    decreases |es|
  {
    es != [] ==> !StaleWake(s, es[0]) && NeverStale(Apply(s, es[0]), es[1..])
  }

  /** Over any run: BUSY is never taken, and an awake idle queue always has a free
      slot, exactly when no wake of the run is stale.  (The driver tests the queue,
      tests the ring and wakes in three accesses, and nothing makes them one.) */
  lemma {:induction false} OpenUnlessStale(s: State, es: seq<Step>)
    requires Inv(s) && Open(s) && Runs(s, es)
    ensures AlwaysOpen(s, es) <==> NeverStale(s, es)
    decreases |es|
  {
    if es != [] {
      OpenStep(s, es[0]);
      if Open(Apply(s, es[0])) {
        StepKeeps(s, es[0]);
        OpenUnlessStale(Apply(s, es[0]), es[1..]);
      }
    }
  }

  /** Neither side is between its action and its recheck. */
  predicate Rechecked(s: State) {
    && !s.x.XIssue? && !s.x.XRecheck? && !s.x.XStart?
    && !s.n.NTest? && !s.n.NTestFree? && !s.n.NWake?
  }

  /** A stopped queue has more than 48 frames in flight, whose completion will run
      NAPI again: fewer than EMZ_TX_WAKE slots are free. */
  predicate Awaited(s: State) {
    s.phase.Up? && s.stopped && Rechecked(s) ==> Free(s) < TX_WAKE
  }

  /** xmit stops the queue in its BUSY branch, the one stop without a recheck, when there
      is room by then and NAPI's next look is not still to come. */
  predicate LateStop(s: State, e: Step) {
    && e.XmitStep? && s.x.XBusy? && s.phase.Up? && Free(s) >= TX_WAKE
    && !s.n.NTest? && !s.n.NTestFree? && !s.n.NWake?
  }

  lemma AwaitedByXmit(s: State, e: Step)
    requires XmitInv(s) && Awaited(s) && Enabled(s, e) && e.XmitStep? && !Early(s.x)
    ensures Awaited(Apply(s, e)) && !LateStop(s, e)
  {
  }

  lemma AwaitedByEarly(s: State, e: Step)
    requires XmitInv(s) && Awaited(s) && Enabled(s, e) && e.XmitStep? && Early(s.x)
    ensures Awaited(Apply(s, e)) <==> !LateStop(s, e)
  {
  }

  lemma AwaitedByNapi(s: State, e: Step)
    requires Awaited(s) && Enabled(s, e) && e.NapiStep?
    ensures Awaited(Apply(s, e))
  {
    if !s.n.NRelease? { NapiReads(s, e); }
  }

  lemma AwaitedByRest(s: State, e: Step)
    requires Awaited(s) && DrainInv(s) && Enabled(s, e) && !e.XmitStep? && !e.NapiStep?
    ensures Awaited(Apply(s, e))
  {
    if e.DrainStep? { DrainWindow(s, e); }
  }

  lemma AwaitedStep(s: State, e: Step)
    requires Inv(s) && Awaited(s) && Enabled(s, e)
    ensures Awaited(Apply(s, e)) <==> !LateStop(s, e)
  {
    if e.NapiStep? { AwaitedByNapi(s, e); } else if !e.XmitStep? { AwaitedByRest(s, e); }
    else if Early(s.x) { AwaitedByEarly(s, e); } else { AwaitedByXmit(s, e); }
  }

  predicate AlwaysAwaited(s: State, es: seq<Step>)
    requires Runs(s, es)
    decreases |es|
  {
    Awaited(s) && (es != [] ==> AlwaysAwaited(Apply(s, es[0]), es[1..]))
  }

  predicate NeverLate(s: State, es: seq<Step>)
    requires Runs(s, es)
    decreases |es|
  {
    es != [] ==> !LateStop(s, es[0]) && NeverLate(Apply(s, es[0]), es[1..])
  }

  /** Over any run: no wakeup is lost exactly when no BUSY stop of the run comes late.
      Whatever wakes were stale, a queue stopped anywhere else, with neither side about to
      recheck it, waits for more than 48 completions. */
  lemma {:induction false} AwaitedUnlessLate(s: State, es: seq<Step>)
    requires Inv(s) && Awaited(s) && Runs(s, es)
    ensures AlwaysAwaited(s, es) <==> NeverLate(s, es)
    decreases |es|
  {
    if es != [] {
      AwaitedStep(s, es[0]);
      if Awaited(Apply(s, es[0])) {
        StepKeeps(s, es[0]);
        AwaitedUnlessLate(Apply(s, es[0]), es[1..]);
      }
    }
  }

  /** A late stop is a BUSY stop, and there is none while the queue was always open. */
  lemma {:induction false} OpenIsNeverLate(s: State, es: seq<Step>)
    requires Runs(s, es) && AlwaysOpen(s, es)
    ensures NeverLate(s, es)
    decreases |es|
  {
    if es != [] { OpenIsNeverLate(Apply(s, es[0]), es[1..]); }
  }

  lemma {:induction false} AwaitedAtEnd(s: State, es: seq<Step>)
    requires Runs(s, es) && AlwaysAwaited(s, es)
    ensures Awaited(Final(s, es))
    decreases |es|
  {
    if es != [] { AwaitedAtEnd(Apply(s, es[0]), es[1..]); }
  }

  /** In particular none is lost while no wake has been stale. */
  lemma NoLostWakeup(s: State, es: seq<Step>)
    requires Inv(s) && Open(s) && Awaited(s) && Runs(s, es) && NeverStale(s, es)
    ensures AlwaysAwaited(s, es) && Awaited(Final(s, es))
    ensures var t := Final(s, es);
      t.phase.Up? && t.stopped && Rechecked(t) ==> |t.win| > 48
  {
    OpenUnlessStale(s, es);
    OpenIsNeverLate(s, es);
    AwaitedUnlessLate(s, es);
    AwaitedAtEnd(s, es);
  }

  /** Both, from any state that keeps the invariant; the driver's first does. */
  lemma Wakeups(s: State, es: seq<Step>)
    requires Inv(s) && Open(s) && Awaited(s) && Runs(s, es)
    ensures AlwaysOpen(s, es) <==> NeverStale(s, es)
    ensures NeverStale(s, es) ==> Awaited(Final(s, es))
  {
    OpenUnlessStale(s, es);
    if NeverStale(s, es) { NoLostWakeup(s, es); }
  }

  // ------------------------------------------------ a wake in one piece

  /** NAPI's test of the ring and its wake follow its test of the queue with nothing in
      between. */
  predicate WakesAtOnce(s: State, es: seq<Step>)
    requires Runs(s, es)
    decreases |es|
  {
    es != [] ==> (s.n.NTestFree? || s.n.NWake? ==> es[0].NapiStep?) && WakesAtOnce(Apply(s, es[0]), es[1..])
  }

  predicate WakesFree(s: State) { s.n.NWake? ==> Free(s) >= TX_WAKE }

  lemma WakesFreeStep(s: State, e: Step)
    requires WakesFree(s) && Enabled(s, e) && (s.n.NTestFree? || s.n.NWake? ==> e.NapiStep?)
    ensures WakesFree(Apply(s, e)) && !StaleWake(s, e)
  {
    if e.NapiStep? {
      hide Apply;
      NapiIs(s, e);
    } else {
      OthersKeepNapi(s, e);
    }
  }

  lemma OthersKeepNapi(s: State, e: Step)
    requires Enabled(s, e) && !e.NapiStep?
    ensures Apply(s, e).n == s.n
  {
    if e.XmitStep? { XmitKeepsNapi(s, e); } else if e.DrainStep? { DrainKeepsNapi(s, e); }
  }

  lemma XmitKeepsNapi(s: State, e: Step)
    requires Enabled(s, e) && e.XmitStep?
    ensures Apply(s, e).n == s.n
  {
    hide Apply, Xmitting;
    XmitIs(s, e);
    if Early(s.x) { EarlyKeepsNapi(s, e); } else { LaterKeepsNapi(s, e); }
  }

  lemma EarlyKeepsNapi(s: State, e: Step)
    requires Enabled(s, e) && e.XmitStep? && Early(s.x)
    ensures Xmitting(s, e.ok).n == s.n
  {
  }

  lemma LaterKeepsNapi(s: State, e: Step)
    requires Enabled(s, e) && e.XmitStep? && !Early(s.x)
    ensures Xmitting(s, e.ok).n == s.n
  {
  }

  lemma DrainKeepsNapi(s: State, e: Step)
    requires Enabled(s, e) && e.DrainStep?
    ensures Apply(s, e).n == s.n
  {
    hide Apply;
    DrainIs(s, e);
  }

  lemma {:induction false} AtOnceIsNeverStale(s: State, es: seq<Step>)
    requires WakesFree(s) && Runs(s, es) && WakesAtOnce(s, es)
    ensures NeverStale(s, es)
    decreases |es|
  {
    if es != [] {
      WakesFreeStep(s, es[0]);
      AtOnceIsNeverStale(Apply(s, es[0]), es[1..]);
    }
  }

  /** So with the wake in one piece the promise is kept over every run, from the driver's
      start or any state the invariant covers: BUSY is never taken, an awake idle queue
      has a free slot, and a stopped one is waiting for more than 48 completions. */
  lemma WakeAtOnceSuffices(s: State, es: seq<Step>)
    requires Inv(s) && Open(s) && Awaited(s) && WakesFree(s)
    requires Runs(s, es) && WakesAtOnce(s, es)
    ensures AlwaysOpen(s, es) && Awaited(Final(s, es))
  {
    AtOnceIsNeverStale(s, es);
    Wakeups(s, es);
  }
}
