/** The statistics NAPI keeps agree with the results the completions had. */
module TxResults {
  import opened TxProtocol
  import opened TxInvariant
  import opened TxSteps
  import opened TxBooks
  import opened TxTheorems

  /** Done, and not yet counted by NAPI, with such a result. */
  function Uncounted(k: Weight, s: State): nat
    requires Taken(s.n) <= |s.win|
  {
    Sum(k, s.win[Taken(s.n)..])
  }

  /** Each completion is in the statistics or waits to be counted there. */
  ghost predicate SameResults(s: State, t: State) {
    && Taken(s.n) <= |s.win| && Taken(t.n) <= |t.win|
    && t.b.errors + Uncounted(DoneFailed, t) - t.b.failDone == s.b.errors + Uncounted(DoneFailed, s) - s.b.failDone
    && t.b.sent + Uncounted(DoneGood, t) - t.b.okDone == s.b.sent + Uncounted(DoneGood, s) - s.b.okDone
  }

  ghost predicate SameCounts(s: State, t: State) {
    && t.b.errors == s.b.errors && t.b.sent == s.b.sent
    && t.b.failDone == s.b.failDone && t.b.okDone == s.b.okDone
  }

  lemma ByRead(s: State, t: State)
    requires Taken(s.n) <= |s.win| && t.n == s.n && t.win == s.win && SameCounts(s, t)
    ensures SameResults(s, t)
  {
  }

  lemma ByIssue(s: State, t: State)
    requires Taken(s.n) <= |s.win| && t.n == s.n && t.win == IssueAll(s.win) && SameCounts(s, t)
    ensures SameResults(s, t)
  {
    SumSame(DoneFailed, s.win[Taken(s.n)..], t.win[Taken(s.n)..]);
    SumSame(DoneGood, s.win[Taken(s.n)..], t.win[Taken(s.n)..]);
  }

  lemma ByAppend(s: State, t: State)
    requires Taken(s.n) <= |s.win| && t.n == s.n && t.win == s.win + [s.draft] && !s.draft.done && SameCounts(s, t)
    ensures SameResults(s, t)
  {
    assert t.win[Taken(s.n)..] == s.win[Taken(s.n)..] + [s.draft];
    SumAppend(s.win[Taken(s.n)..], s.draft);
  }

  /** A slot not yet done was written; if it is done now, that is one completion more. */
  lemma ByWrite(s: State, t: State, i: nat)
    requires AllDone(s.win, Taken(s.n)) && Writes(s, t, i) && !s.win[i].done
    requires t.b.errors == s.b.errors && t.b.sent == s.b.sent
    requires t.b.failDone == s.b.failDone + Weigh(DoneFailed, t.win[i])
    requires t.b.okDone == s.b.okDone + Weigh(DoneGood, t.win[i])
    ensures SameResults(s, t)
  {
    var m := Taken(s.n);
    assert i >= m;
    assert t.win[m..] == s.win[m..][i - m := t.win[i]];
    SumWrite(DoneFailed, s.win[m..], i - m, t.win[i]);
    SumWrite(DoneGood, s.win[m..], i - m, t.win[i]);
  }

  // ------------------------------------------------------ step by step

  lemma ByXmit(s: State, e: Step)
    requires Core(s) && Enabled(s, e) && e.XmitStep? && !s.x.XPublish? && !Writing(s.x)
    ensures SameResults(s, Apply(s, e))
  {
    hide Apply;
    var t := Apply(s, e);
    if Early(s.x) {
      EarlyWindow(s, e);
      EarlySettles(s, e);
      EarlyCompletesNone(s, e);
      ByRead(s, t);
    } else if Late(s.x) {
      LateWindow(s, e);
      LateSettles(s, e);
      LateCompletesNone(s, e);
      ByRead(s, t);
    } else {
      FlushWindow(s, e);
      WriteSettles(s, e);
      WriteCompletesNone(s, e);
      if t.win == s.win { ByRead(s, t); } else { ByIssue(s, t); }
    }
  }

  lemma ByPublish(s: State, e: Step)
    requires Core(s) && Enabled(s, e) && e.XmitStep? && s.x.XPublish?
    ensures SameResults(s, Apply(s, e))
  {
    hide Apply;
    XmitPublishes(s, e);
    ByAppend(s, Apply(s, e));
  }

  lemma FailedMarks(s: State, e: Step)
    requires HoldersInv(s) && Enabled(s, e) && e.XmitStep? && s.x.XFailDone?
    ensures var t, i := Apply(s, e), |s.win| - 1;
      t.win == s.win[i := Marked(s.win[i])] && t.win[i].failed
    ensures Apply(s, e).b == s.b.(failDone := s.b.failDone + 1)
  {
  }

  lemma SubmitMarksNone(s: State, e: Step)
    requires Enabled(s, e) && e.XmitStep? && (s.x.XSubmit? || s.x.XFailStatus?)
    ensures Apply(s, e).win[|s.win| - 1].done == s.win[|s.win| - 1].done
  {
  }

  lemma BySubmit(s: State, e: Step)
    requires Core(s) && Enabled(s, e) && e.XmitStep? && Writing(s.x)
    ensures SameResults(s, Apply(s, e))
  {
    hide Apply;
    NewestHeld(s);
    WriteWindow(s, e);
    WriteSettles(s, e);
    if s.x.XFailDone? {
      FailedMarks(s, e);
    } else {
      WriteCompletesNone(s, e);
      SubmitMarksNone(s, e);
    }
    ByWrite(s, Apply(s, e), |s.win| - 1);
  }

  lemma DmaMarksNone(s: State, e: Step)
    requires SlotsInv(s) && Enabled(s, e) && (e.Move? || e.CbStart?)
    ensures var t, i := Apply(s, e), e.at - s.reclaimed;
      !s.win[i].done && !t.win[i].done && SameCounts(s, t)
  {
    var i := e.at - s.reclaimed;
    assert SlotOk(s.win[i], Held(s, i), s.gate);
  }

  lemma ByDma(s: State, e: Step)
    requires Core(s) && Enabled(s, e) && (e.Move? || e.CbStart?)
    ensures SameResults(s, Apply(s, e))
  {
    hide Apply;
    DmaWindow(s, e);
    DmaMarksNone(s, e);
    ByWrite(s, Apply(s, e), e.at - s.reclaimed);
  }

  /** The callback marks a slot of its own result. */
  lemma CallbackMarks(s: State, e: Step)
    requires SlotsInv(s) && HoldersInv(s) && Enabled(s, e) && e.CbStep? && s.c.CDone?
    ensures var t, i := Apply(s, e), s.c.at - s.reclaimed;
      && !s.win[i].done && t.win[i].done
      && t.b.errors == s.b.errors && t.b.sent == s.b.sent
      && t.b.failDone == s.b.failDone + (if t.win[i].failed then 1 else 0)
      && t.b.okDone == s.b.okDone + (if t.win[i].failed then 0 else 1)
  {
    var i := s.c.at - s.reclaimed;
    assert CallbackAt(s, i) && SlotOk(s.win[i], Held(s, i), s.gate);
  }

  lemma CallbackWaits(s: State, e: Step)
    requires Enabled(s, e) && e.CbStep? && !s.c.CDone?
    ensures var t := Apply(s, e);
      t.n == s.n && t.win == s.win && SameCounts(s, t)
  {
  }

  lemma ByCallback(s: State, e: Step)
    requires Core(s) && Enabled(s, e) && e.CbStep?
    ensures SameResults(s, Apply(s, e))
  {
    hide Apply;
    if s.c.CDone? {
      CallbackWindow(s, e);
      CallbackMarks(s, e);
      ByWrite(s, Apply(s, e), s.c.at - s.reclaimed);
    } else {
      CallbackWaits(s, e);
      ByRead(s, Apply(s, e));
    }
  }

  lemma ScanTakes(s: State, e: Step)
    requires Enabled(s, e) && e.NapiStep? && s.n.NScan? && s.n.pkts < s.n.limit && s.win[s.n.pkts].done
    ensures var t, v := Apply(s, e), s.win[s.n.pkts];
      && t.win == s.win && Taken(t.n) == s.n.pkts + 1
      && t.b.failDone == s.b.failDone && t.b.okDone == s.b.okDone
      && t.b.errors == s.b.errors + Weigh(DoneFailed, v) && t.b.sent == s.b.sent + Weigh(DoneGood, v)
  {
  }

  lemma ScanEnds(s: State, e: Step)
    requires Enabled(s, e) && e.NapiStep? && s.n.NScan? && !(s.n.pkts < s.n.limit && s.win[s.n.pkts].done)
    ensures var t := Apply(s, e);
      t.win == s.win && Taken(t.n) == s.n.pkts && SameCounts(s, t)
  {
  }

  /** NAPI counts the next slot by its result. */
  lemma ByScan(s: State, e: Step)
    requires NapiInv(s) && Enabled(s, e) && e.NapiStep? && s.n.NScan?
    ensures SameResults(s, Apply(s, e))
  {
    hide Apply, Sum, Weigh;
    var p := s.n.pkts;
    if p < s.n.limit && s.win[p].done {
      ScanTakes(s, e);
      assert s.win[p..] == [s.win[p]] + s.win[p + 1..];
      SumFirst(DoneFailed, s.win[p], s.win[p + 1..]);
      SumFirst(DoneGood, s.win[p], s.win[p + 1..]);
    } else {
      ScanEnds(s, e);
    }
  }

  lemma SumFirst(k: Weight, v: Slot, w: seq<Slot>)
    ensures Sum(k, [v] + w) == Weigh(k, v) + Sum(k, w)
  {
    SumSplit(k, [v], w);
    assert [v][..0] == [];
  }

  lemma NapiRests(s: State, e: Step)
    requires Enabled(s, e) && e.NapiStep? && !s.n.NScan? && !s.n.NRelease?
    ensures var t := Apply(s, e);
      t.win == s.win && Taken(t.n) == Taken(s.n) && SameCounts(s, t)
  {
  }

  lemma NapiReleases(s: State, e: Step)
    requires Enabled(s, e) && e.NapiStep? && s.n.NRelease?
    ensures var t := Apply(s, e);
      t.win == s.win[s.n.pkts..] && Taken(t.n) == 0 && SameCounts(s, t)
  {
  }

  lemma ByNapi(s: State, e: Step)
    requires NapiInv(s) && Enabled(s, e) && e.NapiStep? && !s.n.NScan?
    ensures SameResults(s, Apply(s, e))
  {
    hide Apply, Sum;
    if s.n.NRelease? {
      NapiReleases(s, e);
      assert s.win[s.n.pkts..][0..] == s.win[s.n.pkts..];
    } else {
      NapiRests(s, e);
    }
  }

  lemma ByDrain(s: State, e: Step)
    requires Core(s) && Enabled(s, e) && e.DrainStep?
    ensures SameResults(s, Apply(s, e))
  {
    hide Apply;
    DrainWindow(s, e);
    DrainSettles(s, e);
    DrainCompletesNone(s, e);
    if Apply(s, e).win == s.win { ByRead(s, Apply(s, e)); } else { ByIssue(s, Apply(s, e)); }
  }

  lemma OthersComplete(s: State, e: Step)
    requires Enabled(s, e) && ByOthers(e) && !e.Restart?
    ensures var t := Apply(s, e);
      t.n == s.n && t.win == s.win && SameCounts(s, t)
  {
  }

  lemma StepCounts(s: State, e: Step)
    requires Inv(s) && Enabled(s, e) && !e.Restart?
    ensures SameResults(s, Apply(s, e))
  {
    hide Apply;
    if e.XmitStep? {
      if s.x.XPublish? { ByPublish(s, e); } else if Writing(s.x) { BySubmit(s, e); } else { ByXmit(s, e); }
    } else if e.NapiStep? {
      if s.n.NScan? { ByScan(s, e); } else { ByNapi(s, e); }
    } else if e.CbStep? { ByCallback(s, e); }
    else if ByProvider(e) { ByDma(s, e); }
    else if e.DrainStep? { ByDrain(s, e); }
    else {
      OthersComplete(s, e);
      ByRead(s, Apply(s, e));
    }
  }

  /** Over any run without a restart, tx_errors has grown by the failed completions and the
      sent frames by the good ones, but for those done and not yet scanned. */
  lemma {:induction false} StatisticsExact(s: State, es: seq<Step>)
    requires Inv(s) && Runs(s, es) && NoRestart(es)
    ensures Taken(s.n) <= |s.win| && Taken(Final(s, es).n) <= |Final(s, es).win|
    ensures var t := Final(s, es);
      && t.b.errors - s.b.errors
           == (t.b.failDone - s.b.failDone) - (Uncounted(DoneFailed, t) - Uncounted(DoneFailed, s))
      && t.b.sent - s.b.sent
           == (t.b.okDone - s.b.okDone) - (Uncounted(DoneGood, t) - Uncounted(DoneGood, s))
    decreases |es|
  {
    hide Apply;
    if es != [] {
      assert es[0] in es && forall e :: e in es[1..] ==> e in es;
      StepCounts(s, es[0]);
      StepKeeps(s, es[0]);
      StatisticsExact(Apply(s, es[0]), es[1..]);
    }
  }
}
