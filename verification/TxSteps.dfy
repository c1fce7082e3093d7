/** Each step keeps the transmit machine's invariant: one part of the invariant
    and one actor at a time. */
module TxSteps {
  import opened TxProtocol
  import opened TxInvariant

  /** The parts of the invariant about who holds which slot. */
  ghost predicate Core(s: State) { SlotsInv(s) && HoldersInv(s) && XmitInv(s) && NapiInv(s) && DrainInv(s) }

  predicate Early(x: Xmit) { (x.XFree? || x.XBusy? || x.XGate? || x.XCopy? || x.XFill? || x.XPublish?) }

  predicate Late(x: Xmit) { (x.XFull? || x.XStop? || x.XRecheck? || x.XStart? || x.XFailCount? || x.XFailGate?) }

  predicate Writing(x: Xmit) { x.XSubmit? || x.XFailStatus? || x.XFailDone? }

  predicate Flushing(x: Xmit) { x.XIssue? || x.XFlush? }

  predicate ByProvider(e: Step) { e.Move? || e.CbStart? || e.CbStep? }

  predicate ByOthers(e: Step) {
    e.Call? || e.MacSend? || e.StopNapi? || e.StopTx? || e.DmaStop? || e.Restart? || e.RequestReset?
  }

  lemma XmitIs(s: State, e: Step)
    requires Enabled(s, e) && e.XmitStep?
    ensures Apply(s, e) == Xmitting(s, e.ok)
  {
  }

  lemma NapiIs(s: State, e: Step)
    requires Enabled(s, e) && e.NapiStep?
    ensures Apply(s, e) == Completing(s)
  {
  }

  lemma DrainIs(s: State, e: Step)
    requires Enabled(s, e) && e.DrainStep?
    ensures Apply(s, e) == Draining(s, e.timeout, e.reported)
  {
  }

  // ------------------------------------------------------ where xmit may be

  lemma XmitEarly(s: State, e: Step)
    requires XmitInv(s) && SlotsInv(s) && Enabled(s, e) && e.XmitStep? && Early(s.x)
    ensures XmitInv(Apply(s, e))
  {
  }

  lemma XmitLate(s: State, e: Step)
    requires XmitInv(s) && |s.win| <= TX_RING && Enabled(s, e) && e.XmitStep? && Late(s.x)
    ensures XmitInv(Apply(s, e))
  {
    hide Apply;
    XmitIs(s, e);
  }

  lemma XmitWrites(s: State, e: Step)
    requires XmitInv(s) && Enabled(s, e) && e.XmitStep? && (Writing(s.x) || Flushing(s.x))
    ensures XmitInv(Apply(s, e))
  {
    hide Apply;
    XmitIs(s, e);
  }

  lemma XmitByNapi(s: State, e: Step)
    requires XmitInv(s) && Enabled(s, e) && e.NapiStep?
    ensures XmitInv(Apply(s, e))
  {
  }

  lemma XmitByRest(s: State, e: Step)
    requires XmitInv(s) && DrainInv(s) && Enabled(s, e) && !e.XmitStep? && !e.NapiStep?
    ensures XmitInv(Apply(s, e))
  {
  }

  lemma XmitKept(s: State, e: Step)
    requires Core(s) && Enabled(s, e)
    ensures XmitInv(Apply(s, e))
  {
    if e.XmitStep? {
      if Early(s.x) { XmitEarly(s, e); } else if Late(s.x) { XmitLate(s, e); } else { XmitWrites(s, e); }
    } else if e.NapiStep? {
      XmitByNapi(s, e);
    } else {
      XmitByRest(s, e);
    }
  }

  // ------------------------------------------------------ the drain

  /** With every published frame done, what the DMA handed on is what was
      published less tx_failed: tx_failed is raised before done. */
  lemma SentIsMoved(s: State)
    requires SlotsInv(s) && HoldersInv(s) && DoneInv(s) && s.x.XIdle? && AllDone(s.win, |s.win|)
    ensures s.c.CIdle?
    ensures Published(s) - s.txFailed == s.b.moved == s.b.okDone
  {
    assert forall i :: 0 <= i < |s.win| ==> SlotOk(s.win[i], Held(s, i), s.gate);
    SumZero(Undone, s.win);
    SumZero(Handed, s.win);
    if !s.c.CIdle? { assert false; }
  }

  lemma DrainWaits(s: State, e: Step)
    requires Core(s) && DoneInv(s) && Enabled(s, e) && e.DrainStep? && s.phase.pc.DWait?
    ensures DrainInv(Apply(s, e))
  {
    SentIsMoved(s);
  }

  /** xmit and NAPI move only while there is no drain. */
  lemma DrainByActors(s: State, e: Step)
    requires DrainInv(s) && XmitInv(s) && Enabled(s, e) && (e.XmitStep? || e.NapiStep?)
    ensures DrainInv(Apply(s, e))
  {
    hide Apply, XmitInv;
    if e.XmitStep? { XmitKeepsPhase(s, e); } else { NapiKeepsPhase(s, e); }
  }

  lemma XmitKeepsPhase(s: State, e: Step)
    requires XmitInv(s) && Enabled(s, e) && e.XmitStep?
    ensures Apply(s, e).phase == s.phase && (s.phase.Up? || s.phase.NapiOff?)
  {
    hide Apply;
    XmitIs(s, e);
  }

  lemma NapiKeepsPhase(s: State, e: Step)
    requires DrainInv(s) && Enabled(s, e) && e.NapiStep?
    ensures Apply(s, e).phase == s.phase && (s.phase.Up? || s.phase.NapiOff?)
  {
    hide Apply;
    NapiIs(s, e);
  }

  lemma DrainByDma(s: State, e: Step)
    requires Core(s) && Enabled(s, e) && ByProvider(e)
    requires !e.CbStep?
    ensures DrainInv(Apply(s, e))
  {
  }

  lemma DrainByCallback(s: State, e: Step)
    requires Core(s) && Enabled(s, e) && ByProvider(e)
    requires e.CbStep?
    ensures DrainInv(Apply(s, e))
  {
  }

  lemma DrainByProvider(s: State, e: Step)
    requires Core(s) && Enabled(s, e) && ByProvider(e)
    ensures DrainInv(Apply(s, e))
  {
    if !e.CbStep? { DrainByDma(s, e); } else { DrainByCallback(s, e); }
  }

  lemma DrainByRest(s: State, e: Step)
    requires DrainInv(s) && NapiInv(s) && Enabled(s, e) && ByOthers(e)
    ensures DrainInv(Apply(s, e))
  {
  }

  lemma DrainScansSlot(s: State, e: Step)
    requires DrainInv(s) && SlotsInv(s) && Enabled(s, e) && e.DrainStep? && !s.phase.pc.DWait?
    requires s.phase.pc.DScan?
    ensures DrainInv(Apply(s, e))
  {
  }

  lemma DrainScansRest(s: State, e: Step)
    requires DrainInv(s) && SlotsInv(s) && Enabled(s, e) && e.DrainStep? && !s.phase.pc.DWait?
    requires !s.phase.pc.DScan?
    ensures DrainInv(Apply(s, e))
  {
  }

  lemma DrainScans(s: State, e: Step)
    requires DrainInv(s) && SlotsInv(s) && Enabled(s, e) && e.DrainStep? && !s.phase.pc.DWait?
    ensures DrainInv(Apply(s, e))
  {
    if s.phase.pc.DScan? { DrainScansSlot(s, e); } else { DrainScansRest(s, e); }
  }

  lemma DrainKept(s: State, e: Step)
    requires Core(s) && DoneInv(s) && Enabled(s, e)
    ensures DrainInv(Apply(s, e))
  {
    if e.XmitStep? || e.NapiStep? { DrainByActors(s, e); }
    else if ByProvider(e) { DrainByProvider(s, e); }
    else if ByOthers(e) { DrainByRest(s, e); }
    else if s.phase.pc.DWait? { DrainWaits(s, e); }
    else { DrainScans(s, e); }
  }

  // ------------------------------------------------------ issue_pending

  lemma IssueByEarly(s: State, e: Step)
    requires IssueInv(s) && XmitInv(s) && HoldersInv(s) && Enabled(s, e) && e.XmitStep? && Early(s.x)
    ensures IssueInv(Apply(s, e))
  {
  }

  lemma IssueByWrite(s: State, e: Step)
    requires IssueInv(s) && Enabled(s, e) && e.XmitStep? && Writing(s.x)
    ensures IssueInv(Apply(s, e))
  {
  }

  lemma IssueByFlush(s: State, e: Step)
    requires IssueInv(s) && XmitInv(s) && Enabled(s, e) && e.XmitStep? && Flushing(s.x)
    ensures IssueInv(Apply(s, e))
  {
  }

  lemma IssueByLate(s: State, e: Step)
    requires IssueInv(s) && XmitInv(s) && SlotsInv(s) && Enabled(s, e) && e.XmitStep? && Late(s.x)
    ensures IssueInv(Apply(s, e))
  {
  }

  lemma IssueByProvider(s: State, e: Step)
    requires IssueInv(s) && Enabled(s, e) && ByProvider(e)
    ensures IssueInv(Apply(s, e))
  {
  }

  lemma IssueByNapi(s: State, e: Step)
    requires IssueInv(s) && Enabled(s, e) && e.NapiStep?
    ensures IssueInv(Apply(s, e))
  {
  }

  lemma IssueByRest(s: State, e: Step)
    requires IssueInv(s) && XmitInv(s) && DrainInv(s) && Enabled(s, e) && (ByOthers(e) || e.DrainStep?)
    ensures IssueInv(Apply(s, e))
  {
  }

  lemma IssueKept(s: State, e: Step)
    requires Core(s) && IssueInv(s) && Enabled(s, e)
    ensures IssueInv(Apply(s, e))
  {
    if e.XmitStep? {
      if Late(s.x) { IssueByLate(s, e); } else if Early(s.x) { IssueByEarly(s, e); }
      else if Writing(s.x) { IssueByWrite(s, e); } else { IssueByFlush(s, e); }
    } else if e.NapiStep? {
      IssueByNapi(s, e);
    } else if ByProvider(e) {
      IssueByProvider(s, e);
    } else {
      IssueByRest(s, e);
    }
  }

  // ------------------------------------------------------ slots and holders

  predicate Failing(x: Xmit) { x.XFailCount? || x.XFailGate? }

  /** Before it publishes, xmit leaves the window alone. */
  ghost predicate Unpublished(s: State, t: State) {
    && t.win == s.win && t.reclaimed == s.reclaimed && t.gate == s.gate && t.c == s.c
    && !Submitting(s.x) && !Submitting(t.x)
    && (t.x.XPublish? ==> t.draft == Slot(t.len, false, false, NoDesc, 0))
  }

  lemma EarlyReadsFirst(s: State, e: Step)
    requires Enabled(s, e) && e.XmitStep? && Early(s.x) && !s.x.XPublish?
    requires s.x.XFree? || s.x.XBusy? || s.x.XGate?
    ensures Unpublished(s, Apply(s, e))
  {
  }

  lemma EarlyReadsThen(s: State, e: Step)
    requires Enabled(s, e) && e.XmitStep? && Early(s.x) && !s.x.XPublish?
    requires s.x.XCopy? || s.x.XFill?
    ensures Unpublished(s, Apply(s, e))
  {
  }

  lemma EarlyReads(s: State, e: Step)
    requires Enabled(s, e) && e.XmitStep? && Early(s.x) && !s.x.XPublish?
    ensures Unpublished(s, Apply(s, e))
  {
    if s.x.XFree? || s.x.XBusy? || s.x.XGate? { EarlyReadsFirst(s, e); } else { EarlyReadsThen(s, e); }
  }

  lemma UnpublishedKeeps(s: State, t: State)
    requires Unpublished(s, t)
    ensures SlotsInv(s) ==> SlotsInv(t)
    ensures HoldersInv(s) ==> HoldersInv(t)
  {
  }

  lemma SlotsByPublish(s: State, e: Step)
    requires SlotsInv(s) && HoldersInv(s) && XmitInv(s) && Enabled(s, e) && e.XmitStep? && s.x.XPublish?
    ensures SlotsInv(Apply(s, e))
  {
  }

  lemma SlotsBySubmit(s: State, e: Step)
    requires SlotsInv(s) && HoldersInv(s) && Enabled(s, e) && e.XmitStep? && Writing(s.x)
    requires s.x.XSubmit?
    ensures SlotsInv(Apply(s, e))
  {
  }

  lemma SlotsByFailing(s: State, e: Step)
    requires SlotsInv(s) && HoldersInv(s) && Enabled(s, e) && e.XmitStep? && Writing(s.x)
    requires s.x.XFailStatus?
    ensures SlotsInv(Apply(s, e))
  {
  }

  lemma SlotsByFailed(s: State, e: Step)
    requires SlotsInv(s) && HoldersInv(s) && Enabled(s, e) && e.XmitStep? && Writing(s.x)
    requires s.x.XFailDone?
    ensures SlotsInv(Apply(s, e))
  {
  }

  lemma SlotsByWrite(s: State, e: Step)
    requires SlotsInv(s) && HoldersInv(s) && Enabled(s, e) && e.XmitStep? && Writing(s.x)
    ensures SlotsInv(Apply(s, e))
  {
    if s.x.XSubmit? { SlotsBySubmit(s, e); } else if s.x.XFailStatus? { SlotsByFailing(s, e); } else { SlotsByFailed(s, e); }
  }

  lemma SlotsByFlush(s: State, e: Step)
    requires SlotsInv(s) && HoldersInv(s) && Enabled(s, e) && e.XmitStep? && Flushing(s.x)
    ensures SlotsInv(Apply(s, e)) && HoldersInv(Apply(s, e))
  {
    hide Apply;
    XmitIs(s, e);
  }

  /** Nor does it touch the window late in the call, but for a refused submission. */
  lemma LateReads(s: State, e: Step)
    requires Enabled(s, e) && e.XmitStep? && Late(s.x) && !Failing(s.x)
    ensures Unpublished(s, Apply(s, e))
  {
  }

  lemma SlotsByLateFailing(s: State, e: Step)
    requires SlotsInv(s) && Enabled(s, e) && e.XmitStep? && Failing(s.x)
    ensures SlotsInv(Apply(s, e))
  {
  }

  lemma SlotsByLate(s: State, e: Step)
    requires SlotsInv(s) && Enabled(s, e) && e.XmitStep? && Late(s.x)
    ensures SlotsInv(Apply(s, e))
  {
    if Failing(s.x) {
      SlotsByLateFailing(s, e);
    } else {
      LateReads(s, e);
      UnpublishedKeeps(s, Apply(s, e));
    }
  }

  lemma SlotsByDma(s: State, e: Step)
    requires SlotsInv(s) && HoldersInv(s) && Enabled(s, e) && ByProvider(e)
    requires !e.CbStep?
    ensures SlotsInv(Apply(s, e))
  {
  }

  lemma SlotsByCallback(s: State, e: Step)
    requires SlotsInv(s) && HoldersInv(s) && Enabled(s, e) && ByProvider(e)
    requires e.CbStep?
    ensures SlotsInv(Apply(s, e))
  {
  }

  lemma SlotsByProvider(s: State, e: Step)
    requires SlotsInv(s) && HoldersInv(s) && Enabled(s, e) && ByProvider(e)
    ensures SlotsInv(Apply(s, e))
  {
    if !e.CbStep? { SlotsByDma(s, e); } else { SlotsByCallback(s, e); }
  }

  lemma SlotsByRelease(s: State, e: Step)
    requires SlotsInv(s) && NapiInv(s) && Enabled(s, e) && e.NapiStep? && s.n.NRelease?
    ensures SlotsInv(Apply(s, e))
  {
    var t := Apply(s, e);
    assert forall i :: 0 <= i < |t.win| ==> Held(t, i) == Held(s, i + s.n.pkts);
  }

  lemma SlotsByRest(s: State, e: Step)
    requires SlotsInv(s) && XmitInv(s) && Enabled(s, e) && ByOthers(e)
    ensures SlotsInv(Apply(s, e))
  {
  }

  /** The drain's reads leave the ring and its holders alone. */
  lemma DrainReads(s: State, e: Step)
    requires Enabled(s, e) && e.DrainStep? && !s.phase.pc.DIssue?
    ensures var t := Apply(s, e); Alike(s, t)
  {
  }

  /** So do NAPI's, up to its release. */
  lemma NapiReads(s: State, e: Step)
    requires Enabled(s, e) && e.NapiStep? && !s.n.NRelease?
    ensures var t := Apply(s, e); Alike(s, t)
  {
  }

  ghost predicate Alike(s: State, t: State) {
    t.win == s.win && t.reclaimed == s.reclaimed && t.gate == s.gate && t.x == s.x && t.c == s.c
    && t.len == s.len && t.draft == s.draft
  }

  lemma AlikeKeeps(s: State, t: State)
    requires Alike(s, t)
    ensures SlotsInv(s) ==> SlotsInv(t)
    ensures HoldersInv(s) ==> HoldersInv(t)
  {
  }

  lemma DrainIssues(s: State, e: Step)
    requires SlotsInv(s) && HoldersInv(s) && DrainInv(s) && Enabled(s, e) && e.DrainStep? && s.phase.pc.DIssue?
    ensures SlotsInv(Apply(s, e)) && HoldersInv(Apply(s, e))
  {
  }

  lemma SlotsKept(s: State, e: Step)
    requires Core(s) && Enabled(s, e)
    ensures SlotsInv(Apply(s, e))
  {
    if e.XmitStep? {
      if Late(s.x) { SlotsByLate(s, e); } else if s.x.XPublish? { SlotsByPublish(s, e); }
      else if Early(s.x) { EarlyReads(s, e); UnpublishedKeeps(s, Apply(s, e)); }
      else if Writing(s.x) { SlotsByWrite(s, e); } else { SlotsByFlush(s, e); }
    } else if ByProvider(e) { SlotsByProvider(s, e); }
    else if e.NapiStep? {
      if s.n.NRelease? { SlotsByRelease(s, e); } else { NapiReads(s, e); AlikeKeeps(s, Apply(s, e)); }
    }
    else if ByOthers(e) { SlotsByRest(s, e); }
    else if s.phase.pc.DIssue? { DrainIssues(s, e); }
    else { DrainReads(s, e); AlikeKeeps(s, Apply(s, e)); }
  }

  lemma HoldersByPublish(s: State, e: Step)
    requires HoldersInv(s) && Enabled(s, e) && e.XmitStep? && s.x.XPublish?
    ensures HoldersInv(Apply(s, e))
  {
  }

  lemma HoldersByLate(s: State, e: Step)
    requires HoldersInv(s) && Enabled(s, e) && e.XmitStep? && Late(s.x) && !Failing(s.x)
    ensures HoldersInv(Apply(s, e))
  {
    LateReads(s, e);
    UnpublishedKeeps(s, Apply(s, e));
  }

  lemma HoldersByFailing(s: State, e: Step)
    requires HoldersInv(s) && Enabled(s, e) && e.XmitStep? && Failing(s.x)
    ensures HoldersInv(Apply(s, e))
  {
  }

  lemma HoldersByWrite(s: State, e: Step)
    requires HoldersInv(s) && Enabled(s, e) && e.XmitStep? && Writing(s.x)
    ensures HoldersInv(Apply(s, e))
  {
  }

  lemma HoldersByDma(s: State, e: Step)
    requires HoldersInv(s) && SlotsInv(s) && Enabled(s, e) && (e.Move? || e.CbStart?)
    ensures HoldersInv(Apply(s, e))
  {
  }

  lemma HoldersByCallback(s: State, e: Step)
    requires HoldersInv(s) && Enabled(s, e) && e.CbStep?
    ensures HoldersInv(Apply(s, e))
  {
  }

  /** What NAPI releases is done, so nobody holds it. */
  lemma HoldersByRelease(s: State, e: Step)
    requires HoldersInv(s) && SlotsInv(s) && NapiInv(s) && Enabled(s, e) && e.NapiStep? && s.n.NRelease?
    ensures HoldersInv(Apply(s, e))
  {
    if !s.c.CIdle? { assert Held(s, s.c.at - s.reclaimed); }
    if Submitting(s.x) { assert Held(s, |s.win| - 1); }
  }

  lemma HoldersByRest(s: State, e: Step)
    requires HoldersInv(s) && DrainInv(s) && Enabled(s, e) && ByOthers(e)
    ensures HoldersInv(Apply(s, e))
  {
  }

  lemma HoldersKept(s: State, e: Step)
    requires Core(s) && Enabled(s, e)
    ensures HoldersInv(Apply(s, e))
  {
    if e.XmitStep? {
      if Failing(s.x) { HoldersByFailing(s, e); } else if Late(s.x) { HoldersByLate(s, e); }
      else if s.x.XPublish? { HoldersByPublish(s, e); }
      else if Early(s.x) { EarlyReads(s, e); UnpublishedKeeps(s, Apply(s, e)); }
      else if Writing(s.x) { HoldersByWrite(s, e); } else { SlotsByFlush(s, e); }
    } else if e.CbStep? { HoldersByCallback(s, e); }
    else if ByProvider(e) { HoldersByDma(s, e); }
    else if e.NapiStep? {
      if s.n.NRelease? { HoldersByRelease(s, e); } else { NapiReads(s, e); AlikeKeeps(s, Apply(s, e)); }
    }
    else if ByOthers(e) { HoldersByRest(s, e); }
    else if s.phase.pc.DIssue? { DrainIssues(s, e); }
    else { DrainReads(s, e); AlikeKeeps(s, Apply(s, e)); }
  }
}
