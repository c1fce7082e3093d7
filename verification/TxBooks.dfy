/** Each step keeps the transmit machine's books: what NAPI has counted, what
    BQL has been told, and how completions split by result. */
module TxBooks {
  import opened TxProtocol
  import opened TxInvariant
  import opened TxSteps

  /** The parts of the window the books weigh. */
  function From(s: State): nat { if s.n.NRelease? then s.n.pkts else 0 }

  ghost predicate SameSums(s: State, v: seq<Slot>, w: seq<Slot>) {
    && |v| == |w| && From(s) <= |v| && Taken(s.n) <= |v|
    && Sum(Bytes, w[..Taken(s.n)]) == Sum(Bytes, v[..Taken(s.n)])
    && Sum(Bytes, w[From(s)..]) == Sum(Bytes, v[From(s)..])
  }

  lemma WriteSums(s: State, i: nat, v: Slot)
    requires i < |s.win| && Taken(s.n) <= |s.win| && v.len == s.win[i].len
    ensures SameSums(s, s.win, s.win[i := v])
    ensures forall k {:trigger Sum(k, s.win[i := v])} :: Sum(k, s.win[i := v]) == Sum(k, s.win) - Weigh(k, s.win[i]) + Weigh(k, v)
  {
    forall k { SumWrite(k, s.win, i, v); }
    SumSame(Bytes, s.win[i := v][..Taken(s.n)], s.win[..Taken(s.n)]);
    SumSame(Bytes, s.win[i := v][From(s)..], s.win[From(s)..]);
  }

  lemma IssueSums(s: State)
    requires Taken(s.n) <= |s.win|
    ensures SameSums(s, s.win, IssueAll(s.win))
    ensures forall k {:trigger Sum(k, IssueAll(s.win))} :: Sum(k, IssueAll(s.win)) == Sum(k, s.win)
  {
    forall k { SumSame(k, IssueAll(s.win), s.win); }
    SumSame(Bytes, IssueAll(s.win)[..Taken(s.n)], s.win[..Taken(s.n)]);
    SumSame(Bytes, IssueAll(s.win)[From(s)..], s.win[From(s)..]);
  }

  // ------------------------------------------------------ what a step does to the window

  ghost predicate Reads(s: State, t: State) { t.win == s.win && t.n == s.n && t.phase == s.phase && t.c == s.c }

  /** One slot was written; its length stayed, and it is still done if it was. */
  ghost predicate Writes(s: State, t: State, i: nat) {
    && t.n == s.n && t.phase == s.phase && i < |s.win| && |t.win| == |s.win|
    && t.win == s.win[i := t.win[i]] && t.win[i].len == s.win[i].len && (s.win[i].done ==> t.win[i].done)
  }

  ghost predicate Issues(s: State, t: State) {
    t.n == s.n && (t.win == s.win || t.win == IssueAll(s.win)) && (t.phase.Up? <==> s.phase.Up?) && t.c == s.c
  }

  lemma EarlyWindow(s: State, e: Step)
    requires Enabled(s, e) && e.XmitStep? && Early(s.x) && !s.x.XPublish?
    ensures Reads(s, Apply(s, e))
  {
  }

  lemma LateWindow(s: State, e: Step)
    requires Enabled(s, e) && e.XmitStep? && Late(s.x)
    ensures Reads(s, Apply(s, e))
  {
  }

  lemma WriteWindow(s: State, e: Step)
    requires Enabled(s, e) && e.XmitStep? && Writing(s.x)
    ensures Writes(s, Apply(s, e), |s.win| - 1)
  {
  }

  lemma FlushWindow(s: State, e: Step)
    requires Enabled(s, e) && e.XmitStep? && Flushing(s.x)
    ensures Issues(s, Apply(s, e))
  {
  }

  lemma DmaWindow(s: State, e: Step)
    requires Enabled(s, e) && (e.Move? || e.CbStart?)
    ensures Writes(s, Apply(s, e), e.at - s.reclaimed)
  {
  }

  lemma CallbackWindow(s: State, e: Step)
    requires Enabled(s, e) && e.CbStep?
    ensures Writes(s, Apply(s, e), s.c.at - s.reclaimed)
  {
  }

  lemma DrainWindow(s: State, e: Step)
    requires Enabled(s, e) && e.DrainStep?
    ensures Issues(s, Apply(s, e))
  {
    if !s.phase.pc.DIssue? { DrainReads(s, e); }
  }

  // ------------------------------------------------------ NAPI's scan

  /** NAPI's part survives whatever keeps its slots done and their lengths. */
  lemma NapiFrame(s: State, t: State)
    requires NapiInv(s) && t.n == s.n && (!t.n.NIdle? ==> t.phase.Up?)
    requires |s.win| <= |t.win| && forall i :: 0 <= i < |s.win| ==> (s.win[i].done ==> t.win[i].done) && t.win[i].len == s.win[i].len
    ensures NapiInv(t)
  {
    SumSame(Bytes, s.win[..Taken(s.n)], t.win[..Taken(s.n)]);
  }

  /** NAPI's scan takes a slot only when it is done, and only the next one. */
  lemma NapiScans(s: State, e: Step)
    requires NapiInv(s) && Enabled(s, e) && e.NapiStep? && s.n.NScan?
    ensures NapiInv(Apply(s, e))
  {
    var p := s.n.pkts;
    if p < s.n.limit && s.win[p].done {
      assert s.win[..p + 1] == s.win[..p] + [s.win[p]];
      SumAppend(s.win[..p], s.win[p]);
      assert Apply(s, e).n == NScan(p + 1, s.n.bytes + s.win[p].len, s.n.limit) && Apply(s, e).win == s.win;
    } else {
      assert Apply(s, e).win == s.win && Taken(Apply(s, e).n) == p;
    }
  }

  lemma NapiMoves(s: State, e: Step)
    requires NapiInv(s) && Enabled(s, e) && e.NapiStep? && !s.n.NScan?
    ensures NapiInv(Apply(s, e))
  {
    assert s.win[..0] == [];
  }

  lemma NapiKept(s: State, e: Step)
    requires Core(s) && Enabled(s, e)
    ensures NapiInv(Apply(s, e))
  {
    if e.NapiStep? {
      if s.n.NScan? { NapiScans(s, e); } else { NapiMoves(s, e); }
    } else if ByOthers(e) {
      NapiByRest(s, e);
    } else {
      if e.CbStep? { CallbackWindow(s, e); } else if ByProvider(e) { DmaWindow(s, e); }
      else if e.DrainStep? { DrainWindow(s, e); } else if s.x.XPublish? { XmitPublishes(s, e); }
      else if Early(s.x) { EarlyWindow(s, e); } else if Late(s.x) { LateWindow(s, e); }
      else if Writing(s.x) { WriteWindow(s, e); } else { FlushWindow(s, e); }
      NapiFrame(s, Apply(s, e));
    }
  }

  lemma NapiByRest(s: State, e: Step)
    requires NapiInv(s) && Enabled(s, e) && ByOthers(e)
    requires DrainInv(s)
    ensures NapiInv(Apply(s, e))
  {
  }

  lemma XmitPublishes(s: State, e: Step)
    requires Enabled(s, e) && e.XmitStep? && s.x.XPublish?
    ensures var t := Apply(s, e);
      t.n == s.n && t.phase == s.phase && t.c == s.c && t.b == s.b && t.txFailed == s.txFailed && t.win == s.win + [s.draft] && t.x.XSubmit?
  {
  }

  // ------------------------------------------------------ frames and bytes

  function Hold(x: Xmit): nat { if Holding(x) then 1 else 0 }

  function Told(s: State): nat { if s.x.XPublish? then s.len else 0 }

  /** A step that publishes and releases nothing leaves every account's balance. */
  ghost predicate Settled(s: State, t: State) {
    && t.n == s.n && t.b.errors == s.b.errors && t.b.sent == s.b.sent
    && t.b.discarded == s.b.discarded && t.b.bqlDone == s.b.bqlDone
    && t.b.accepted - t.b.dropped - Hold(t.x) == s.b.accepted - s.b.dropped - Hold(s.x)
    && t.b.bqlSent - Told(t) == s.b.bqlSent - Told(s)
  }

  lemma FirstSettles(s: State, e: Step)
    requires Enabled(s, e) && e.XmitStep? && Early(s.x) && !s.x.XPublish?
    requires s.x.XFree? || s.x.XBusy? || s.x.XGate?
    ensures Settled(s, Apply(s, e))
  {
  }

  lemma ThenSettles(s: State, e: Step)
    requires Enabled(s, e) && e.XmitStep? && Early(s.x) && !s.x.XPublish?
    requires s.x.XCopy? || s.x.XFill?
    ensures Settled(s, Apply(s, e))
  {
  }

  lemma EarlySettles(s: State, e: Step)
    requires Enabled(s, e) && e.XmitStep? && Early(s.x) && !s.x.XPublish?
    ensures Settled(s, Apply(s, e))
  {
    if s.x.XFree? || s.x.XBusy? || s.x.XGate? { FirstSettles(s, e); } else { ThenSettles(s, e); }
  }

  lemma LateSettles(s: State, e: Step)
    requires Enabled(s, e) && e.XmitStep? && Late(s.x)
    ensures Settled(s, Apply(s, e))
  {
  }

  lemma WriteSettles(s: State, e: Step)
    requires Enabled(s, e) && e.XmitStep? && !Early(s.x) && !Late(s.x)
    ensures Settled(s, Apply(s, e))
  {
  }

  lemma ProviderSettles(s: State, e: Step)
    requires Enabled(s, e) && ByProvider(e)
    ensures Settled(s, Apply(s, e))
  {
  }

  lemma SettlesIssues(s: State, e: Step)
    requires Enabled(s, e) && e.DrainStep?
    requires s.phase.pc.DIssue?
    ensures Settled(s, Apply(s, e))
  {
  }

  lemma SettlesScans(s: State, e: Step)
    requires Enabled(s, e) && e.DrainStep?
    requires s.phase.pc.DScan?
    ensures Settled(s, Apply(s, e))
  {
  }

  lemma SettlesDecides(s: State, e: Step)
    requires Enabled(s, e) && e.DrainStep?
    requires s.phase.pc.DSent? || s.phase.pc.DWait?
    ensures Settled(s, Apply(s, e))
  {
  }

  lemma DrainSettles(s: State, e: Step)
    requires Enabled(s, e) && e.DrainStep?
    ensures Settled(s, Apply(s, e))
  {
    if s.phase.pc.DIssue? { SettlesIssues(s, e); } else if s.phase.pc.DScan? { SettlesScans(s, e); } else { SettlesDecides(s, e); }
  }

  lemma RestSettles(s: State, e: Step)
    requires Enabled(s, e) && ByOthers(e) && !e.Restart?
    ensures Settled(s, Apply(s, e)) && Apply(s, e).win == s.win
  {
  }

  lemma BooksFrame(s: State, t: State)
    requires BooksInv(s) && Settled(s, t) && SameSums(s, s.win, t.win)
    ensures BooksInv(t)
  {
  }

  lemma BooksByPublish(s: State, e: Step)
    requires BooksInv(s) && HoldersInv(s) && Enabled(s, e) && e.XmitStep? && s.x.XPublish?
    ensures BooksInv(Apply(s, e))
  {
    XmitPublishes(s, e);
    var t := Apply(s, e);
    assert t.win[From(t)..] == s.win[From(s)..] + [s.draft];
    SumAppend(s.win[From(s)..], s.draft);
  }

  /** Each frame is counted once, as an error or as sent, when it is scanned. */
  lemma Scanned(s: State, e: Step)
    requires Enabled(s, e) && e.NapiStep? && s.n.NScan?
    ensures Counted(s, Apply(s, e))
  {
  }

  lemma Tested(s: State, e: Step)
    requires Enabled(s, e) && e.NapiStep? && (s.n.NIdle? || s.n.NTest? || s.n.NTestFree? || s.n.NWake?)
    ensures Counted(s, Apply(s, e))
  {
  }

  ghost predicate Counted(s: State, t: State) {
    && t.win == s.win && t.x == s.x && t.len == s.len && !t.n.NRelease?
    && t.b.(errors := 0, sent := 0) == s.b.(errors := 0, sent := 0)
    && t.b.errors + t.b.sent - Taken(t.n) == s.b.errors + s.b.sent - Taken(s.n)
  }

  lemma BooksByScan(s: State, e: Step)
    requires BooksInv(s) && NapiInv(s) && Enabled(s, e) && e.NapiStep? && !s.n.NRelease? && !s.n.NBql?
    ensures BooksInv(Apply(s, e))
  {
    if s.n.NScan? { Scanned(s, e); } else { Tested(s, e); }
    NapiKeepsTaken(s, e);
  }

  lemma NapiKeepsTaken(s: State, e: Step)
    requires NapiInv(s) && Enabled(s, e) && e.NapiStep? && !s.n.NRelease?
    ensures Taken(Apply(s, e).n) <= |s.win|
  {
  }

  lemma BooksByRelease(s: State, e: Step)
    requires BooksInv(s) && NapiInv(s) && Enabled(s, e) && e.NapiStep? && (s.n.NBql? || s.n.NRelease?)
    ensures BooksInv(Apply(s, e))
  {
    var p := s.n.pkts;
    SumCut(s.win, p);
    assert s.win[0..] == s.win && s.win[p..][0..] == s.win[p..];
  }

  lemma BooksByRestart(s: State, e: Step)
    requires BooksInv(s) && DrainInv(s) && Enabled(s, e) && e.Restart?
    ensures BooksInv(Apply(s, e))
  {
    assert s.win[0..] == s.win;
  }

  /** How the window's sums answer to any step but a publish, NAPI's or a restart. */
  lemma Weighed(s: State, e: Step)
    requires Taken(s.n) <= |s.win| && Enabled(s, e) && !e.NapiStep? && !e.Restart? && !(e.XmitStep? && s.x.XPublish?)
    ensures SameSums(s, s.win, Apply(s, e).win)
  {
    var t := Apply(s, e);
    if e.CbStep? { CallbackWindow(s, e); WriteSums(s, s.c.at - s.reclaimed, t.win[s.c.at - s.reclaimed]); }
    else if ByProvider(e) { DmaWindow(s, e); WriteSums(s, e.at - s.reclaimed, t.win[e.at - s.reclaimed]); }
    else if ByOthers(e) { RestSettles(s, e); }
    else if e.DrainStep? { DrainWindow(s, e); IssueSums(s); }
    else if Early(s.x) { EarlyWindow(s, e); }
    else if Late(s.x) { LateWindow(s, e); }
    else if Writing(s.x) { WriteWindow(s, e); WriteSums(s, |s.win| - 1, t.win[|s.win| - 1]); }
    else { FlushWindow(s, e); IssueSums(s); }
  }

  lemma BooksKept(s: State, e: Step)
    requires Core(s) && BooksInv(s) && Enabled(s, e)
    ensures BooksInv(Apply(s, e))
  {
    if e.NapiStep? {
      if s.n.NBql? || s.n.NRelease? { BooksByRelease(s, e); } else { BooksByScan(s, e); }
    } else if e.Restart? {
      BooksByRestart(s, e);
    } else if e.XmitStep? && s.x.XPublish? {
      BooksByPublish(s, e);
    } else {
      Weighed(s, e);
      if ByProvider(e) { ProviderSettles(s, e); } else if ByOthers(e) { RestSettles(s, e); }
      else if e.DrainStep? { DrainSettles(s, e); } else if Early(s.x) { EarlySettles(s, e); }
      else if Late(s.x) { LateSettles(s, e); } else { WriteSettles(s, e); }
      BooksFrame(s, Apply(s, e));
    }
  }

  // ------------------------------------------------------ completions by result

  function XmitFailed(x: Xmit): nat { if x.XFailGate? || x.XFailDone? then 1 else 0 }

  /** A step that completes nothing. */
  ghost predicate Incomplete(s: State, t: State) {
    && t.c == s.c && t.reclaimed == s.reclaimed && t.b.okDone == s.b.okDone && t.b.failDone == s.b.failDone
    && t.b.moved == s.b.moved && t.b.macSent == s.b.macSent
    && t.txFailed - XmitFailed(t.x) == s.txFailed - XmitFailed(s.x)
    && (s.gate ==> t.gate) && (t.phase.Down? <==> s.phase.Down?)
  }

  lemma FirstCompletesNone(s: State, e: Step)
    requires Enabled(s, e) && e.XmitStep? && Early(s.x)
    requires s.x.XFree? || s.x.XBusy? || s.x.XGate?
    ensures Incomplete(s, Apply(s, e))
  {
  }

  lemma ThenCompletesNone(s: State, e: Step)
    requires Enabled(s, e) && e.XmitStep? && Early(s.x)
    requires s.x.XCopy? || s.x.XFill? || s.x.XPublish?
    ensures Incomplete(s, Apply(s, e))
  {
  }

  lemma EarlyCompletesNone(s: State, e: Step)
    requires Enabled(s, e) && e.XmitStep? && Early(s.x)
    ensures Incomplete(s, Apply(s, e))
  {
    if s.x.XFree? || s.x.XBusy? || s.x.XGate? { FirstCompletesNone(s, e); } else { ThenCompletesNone(s, e); }
  }

  lemma LateCompletesNone(s: State, e: Step)
    requires Enabled(s, e) && e.XmitStep? && Late(s.x)
    ensures Incomplete(s, Apply(s, e))
  {
  }

  lemma WriteCompletesNone(s: State, e: Step)
    requires Enabled(s, e) && e.XmitStep? && !Early(s.x) && !Late(s.x) && !s.x.XFailDone?
    ensures Incomplete(s, Apply(s, e))
  {
  }

  lemma CompletesNoneIssues(s: State, e: Step)
    requires Enabled(s, e) && e.DrainStep?
    requires s.phase.pc.DIssue?
    ensures Incomplete(s, Apply(s, e))
  {
  }

  lemma CompletesNoneScans(s: State, e: Step)
    requires Enabled(s, e) && e.DrainStep?
    requires s.phase.pc.DScan?
    ensures Incomplete(s, Apply(s, e))
  {
  }

  lemma CompletesNoneDecides(s: State, e: Step)
    requires Enabled(s, e) && e.DrainStep?
    requires s.phase.pc.DSent? || s.phase.pc.DWait?
    ensures Incomplete(s, Apply(s, e))
  {
  }

  lemma DrainCompletesNone(s: State, e: Step)
    requires Enabled(s, e) && e.DrainStep?
    ensures Incomplete(s, Apply(s, e))
  {
    if s.phase.pc.DIssue? { CompletesNoneIssues(s, e); } else if s.phase.pc.DScan? { CompletesNoneScans(s, e); } else { CompletesNoneDecides(s, e); }
  }

  lemma ScanCompletesNone(s: State, e: Step)
    requires Enabled(s, e) && e.NapiStep? && !s.n.NRelease?
    requires s.n.NScan?
    ensures Incomplete(s, Apply(s, e))
  {
  }

  lemma TestCompletesNone(s: State, e: Step)
    requires Enabled(s, e) && e.NapiStep? && !s.n.NRelease?
    requires !s.n.NScan?
    ensures Incomplete(s, Apply(s, e))
  {
  }

  lemma NapiCompletesNone(s: State, e: Step)
    requires Enabled(s, e) && e.NapiStep? && !s.n.NRelease?
    ensures Incomplete(s, Apply(s, e))
  {
    if s.n.NScan? { ScanCompletesNone(s, e); } else { TestCompletesNone(s, e); }
  }

  lemma DoneFrame(s: State, t: State)
    requires DoneInv(s) && Incomplete(s, t)
    requires |t.win| + Sum(Undone, s.win) == |s.win| + Sum(Undone, t.win)
    requires Sum(Handed, t.win) == Sum(Handed, s.win)
    ensures DoneInv(t)
  {
  }

  lemma DoneByPublish(s: State, e: Step)
    requires DoneInv(s) && HoldersInv(s) && Enabled(s, e) && e.XmitStep? && s.x.XPublish?
    ensures DoneInv(Apply(s, e))
  {
    XmitPublishes(s, e);
    EarlyCompletesNone(s, e);
    SumAppend(s.win, s.draft);
    DoneFrame(s, Apply(s, e));
  }

  /** Only a slot not yet done, with its descriptor gone, is written by xmit. */
  lemma NewestHeld(s: State)
    requires SlotsInv(s) && HoldersInv(s) && Submitting(s.x)
    ensures s.win != [] && !s.win[|s.win| - 1].done && s.win[|s.win| - 1].desc.NoDesc?
  {
    var i := |s.win| - 1;
    assert Held(s, i) && SlotOk(s.win[i], Held(s, i), s.gate);
  }

  lemma DoneBySubmit(s: State, e: Step)
    requires DoneInv(s) && SlotsInv(s) && HoldersInv(s) && Taken(s.n) <= |s.win|
    requires Enabled(s, e) && e.XmitStep? && (s.x.XSubmit? || s.x.XFailStatus?)
    ensures DoneInv(Apply(s, e))
  {
    NewestHeld(s);
    WriteWindow(s, e);
    WriteSums(s, |s.win| - 1, Apply(s, e).win[|s.win| - 1]);
    WriteCompletesNone(s, e);
    DoneFrame(s, Apply(s, e));
  }

  lemma DoneByFailed(s: State, e: Step)
    requires DoneInv(s) && SlotsInv(s) && HoldersInv(s) && Taken(s.n) <= |s.win|
    requires Enabled(s, e) && e.XmitStep? && s.x.XFailDone?
    ensures DoneInv(Apply(s, e))
  {
    NewestHeld(s);
    WriteWindow(s, e);
    WriteSums(s, |s.win| - 1, Apply(s, e).win[|s.win| - 1]);
  }

  lemma DoneByXmit(s: State, e: Step)
    requires DoneInv(s) && Core(s) && Enabled(s, e) && e.XmitStep? && !s.x.XPublish? && !Writing(s.x)
    ensures DoneInv(Apply(s, e))
  {
    if Early(s.x) { EarlyWindow(s, e); EarlyCompletesNone(s, e); }
    else if Late(s.x) { LateWindow(s, e); LateCompletesNone(s, e); }
    else { FlushWindow(s, e); IssueSums(s); WriteCompletesNone(s, e); }
    DoneFrame(s, Apply(s, e));
  }

  lemma DoneByDma(s: State, e: Step)
    requires DoneInv(s) && SlotsInv(s) && Taken(s.n) <= |s.win| && Enabled(s, e) && (e.Move? || e.CbStart?)
    ensures DoneInv(Apply(s, e))
  {
    var t := Apply(s, e);
    var i := e.at - s.reclaimed;
    assert SlotOk(s.win[i], Held(s, i), s.gate);
    DmaWindow(s, e);
    WriteSums(s, i, t.win[i]);
  }

  lemma DoneByCallback(s: State, e: Step)
    requires DoneInv(s) && SlotsInv(s) && HoldersInv(s) && Taken(s.n) <= |s.win| && Enabled(s, e) && e.CbStep? && s.c.CDone?
    ensures DoneInv(Apply(s, e))
  {
    var t := Apply(s, e);
    var i := s.c.at - s.reclaimed;
    assert CallbackAt(s, i) && SlotOk(s.win[i], Held(s, i), s.gate);
    CallbackWindow(s, e);
    WriteSums(s, i, t.win[i]);
  }

  lemma DoneByGate(s: State, e: Step)
    requires DoneInv(s) && Enabled(s, e) && e.CbStep? && !s.c.CDone?
    ensures DoneInv(Apply(s, e))
  {
    assert Apply(s, e).win == s.win;
  }

  lemma DoneByScan(s: State, e: Step)
    requires DoneInv(s) && Enabled(s, e) && e.NapiStep? && !s.n.NRelease?
    ensures DoneInv(Apply(s, e))
  {
    NapiReads(s, e);
    NapiCompletesNone(s, e);
    DoneFrame(s, Apply(s, e));
  }

  /** What NAPI releases is done and out of the provider's hands. */
  lemma ReleasedWeighsNothing(s: State, p: nat)
    requires SlotsInv(s) && AllDone(s.win, p)
    ensures Sum(Undone, s.win[p..]) == Sum(Undone, s.win) && Sum(Handed, s.win[p..]) == Sum(Handed, s.win)
  {
    SumCut(s.win, p);
    assert forall i :: 0 <= i < p ==> SlotOk(s.win[i], Held(s, i), s.gate);
    SumZero(Undone, s.win[..p]);
    SumZero(Handed, s.win[..p]);
  }

  lemma DoneByRelease(s: State, e: Step)
    requires DoneInv(s) && SlotsInv(s) && NapiInv(s) && Enabled(s, e) && e.NapiStep? && s.n.NRelease?
    ensures DoneInv(Apply(s, e))
  {
    ReleasedWeighsNothing(s, s.n.pkts);
    assert Apply(s, e) == s.(n := NTest, win := s.win[s.n.pkts..], reclaimed := s.reclaimed + s.n.pkts);
  }

  lemma DoneByRest(s: State, e: Step)
    requires DoneInv(s) && DrainInv(s) && Enabled(s, e) && ByOthers(e)
    ensures DoneInv(Apply(s, e))
  {
  }

  lemma DoneKept(s: State, e: Step)
    requires Core(s) && DoneInv(s) && Enabled(s, e)
    ensures DoneInv(Apply(s, e))
  {
    if e.XmitStep? {
      if s.x.XPublish? { DoneByPublish(s, e); } else if s.x.XFailDone? { DoneByFailed(s, e); }
      else if Writing(s.x) { DoneBySubmit(s, e); } else { DoneByXmit(s, e); }
    } else if e.CbStep? {
      if s.c.CDone? { DoneByCallback(s, e); } else { DoneByGate(s, e); }
    }
    else if ByProvider(e) { DoneByDma(s, e); }
    else if e.NapiStep? {
      if s.n.NRelease? { DoneByRelease(s, e); } else { DoneByScan(s, e); }
    } else if ByOthers(e) { DoneByRest(s, e); }
    else {
      DrainWindow(s, e);
      IssueSums(s);
      DrainCompletesNone(s, e);
      DoneFrame(s, Apply(s, e));
    }
  }

  /** Every step keeps the whole invariant. */
  lemma StepKeeps(s: State, e: Step)
    requires Inv(s) && Enabled(s, e)
    ensures Inv(Apply(s, e))
  {
    XmitKept(s, e);
    DrainKept(s, e);
    IssueKept(s, e);
    SlotsKept(s, e);
    HoldersKept(s, e);
    NapiKept(s, e);
    BooksKept(s, e);
    DoneKept(s, e);
  }
}
