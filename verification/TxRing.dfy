/** The transmit ring as the driver keeps it: an array of 64 slots and free-running
    32-bit indices and counters.  Each method is one shared access of one actor and
    takes the step of TxProtocol it stands for, so everything proved over that
    machine's runs holds of any interleaving of these calls. */
module TxRing {
  import opened TxProtocol
  import opened TxInvariant
  import TxSteps
  import TxBooks
  import TxTheorems
  import opened Ring32

  /** emz_tx_complete with its 32-bit locals. */
  datatype Completer =
    | Idle
    | Scan(tail: U32, head: U32, pkts: nat, bytes: nat)
    | Bql(tail: U32, pkts: nat, bytes: nat)
    | Release(tail: U32, pkts: nat)
    | Test
    | TestFree
    | Wake

  /** emz_tx_drain with its 32-bit locals, inside the datapath's phases. */
  datatype Datapath =
    | Running
    | NapiStopped
    | DrainIssue
    | DrainScan(i: U32)
    | DrainSent
    | DrainWait(sent: U32)
    | DrainReturn(sure: bool)
    | Released(sure: bool)

  /** The locals hold, wrapped, what the machine's actor holds. */
  ghost predicate NapiAgrees(n: Completer, m: Napi, reclaimed: nat) {
    match m
    case NIdle => n == Idle
    case NScan(pkts, bytes, limit) => n == Scan(Wrap(reclaimed + pkts), Wrap(reclaimed + limit), pkts, bytes)
    case NBql(pkts, bytes) => n == Bql(Wrap(reclaimed + pkts), pkts, bytes)
    case NRelease(pkts) => n == Release(Wrap(reclaimed + pkts), pkts)
    case NTest => n == Test
    case NTestFree => n == TestFree
    case NWake => n == Wake
  }

  ghost predicate PhaseAgrees(d: Datapath, p: Phase, reclaimed: nat) {
    match p
    case Up => d == Running
    case NapiOff => d == NapiStopped
    case Down(sure) => d == Released(sure)
    case Drain(pc) =>
      match pc
      case DIssue => d == DrainIssue
      case DScan(i) => d == DrainScan(Wrap(reclaimed + i))
      case DSent => d == DrainSent
      case DWait(sent) => sent >= 0 && d == DrainWait(Wrap(sent))
      case DReturn(sure) => d == DrainReturn(sure)
  }

  lemma WindowIssued(a: seq<Slot>, t: nat, n: nat)
    requires |a| == SLOTS
    ensures Window(IssueAll(a), t, n) == IssueAll(Window(a, t, n))
  {
  }

  lemma Dec32(a: nat)
    ensures Sub32(Wrap(a + 1), 1) % SLOTS == SlotOf(a)
  {
    WrapMod(a);
    WrapMod(a + 1);
    Slot32(a);
  }

  lemma TestDecides(s: State)
    requires Enabled(s, NapiStep) && s.n.NTestFree?
    ensures Completing(s) == s.(n := if Free(s) >= TX_WAKE then NWake else NIdle)
  {
  }

  lemma ReleaseDecides(s: State)
    requires Enabled(s, NapiStep) && s.n.NRelease?
    ensures Completing(s) == s.(n := NTest, win := s.win[s.n.pkts..], reclaimed := s.reclaimed + s.n.pkts)
  {
  }

  lemma FillDecides(s: State)
    requires Enabled(s, XmitStep(true)) && s.x.XFill?
    ensures Xmitting(s, true) ==
      s.(x := XPublish, draft := Slot(s.len, false, false, NoDesc, 0), b := s.b.(bqlSent := s.b.bqlSent + s.len))
  {
  }

  lemma PublishDecides(s: State)
    requires Enabled(s, XmitStep(true)) && s.x.XPublish?
    ensures Xmitting(s, true) == s.(x := XSubmit, win := s.win + [s.draft])
  {
  }

  lemma FailDecides(s: State)
    requires Enabled(s, XmitStep(true)) && s.win != [] && (s.x.XFailStatus? || s.x.XFailDone?)
    ensures var v, t := Get(s, Newest(s)), Xmitting(s, true);
      t == if s.x.XFailStatus? then s.(x := XFailCount, win := Put(s, Newest(s), v.(failed := true)))
           else s.(x := XFull, win := Put(s, Newest(s), Marked(v)), b := t.b)
  {
  }

  lemma FailureDecides(s: State)
    requires Enabled(s, XmitStep(true)) && (s.x.XFailCount? || s.x.XFailGate?)
    ensures Xmitting(s, true) ==
      if s.x.XFailCount? then s.(x := XFailGate, txFailed := s.txFailed + 1) else s.(x := XFailDone, gate := true)
  {
  }

  lemma DrainAdvances(s: State, timeout: bool)
    requires s.phase.Drain? && s.phase.pc.DScan? && Enabled(s, DrainStep(timeout, 0))
    requires s.phase.pc.i < |s.win| && s.win[s.phase.pc.i].done
    ensures Draining(s, timeout, 0) == s.(phase := Drain(DScan(s.phase.pc.i + 1)))
  {
  }

  lemma ScanEnds(s: State)
    requires s.n.NScan? && Enabled(s, NapiStep) && (s.n.pkts < s.n.limit ==> !s.win[s.n.pkts].done)
    ensures Completing(s) == s.(n := if s.n.pkts == 0 then NIdle else NBql(s.n.pkts, s.n.bytes))
  {
  }

  lemma ScanTakes(s: State)
    requires s.n.NScan? && Enabled(s, NapiStep) && s.n.pkts < s.n.limit && s.win[s.n.pkts].done
    ensures Completing(s) == s.(n := NScan(s.n.pkts + 1, s.n.bytes + s.win[s.n.pkts].len, s.n.limit), b := Completing(s).b)
  {
  }

  lemma DrainChooses(s: State, timeout: bool, reported: nat)
    requires s.phase.Drain? && s.phase.pc.DWait? && Enabled(s, DrainStep(timeout, reported))
    ensures Draining(s, timeout, reported) == s.(phase :=
      if reported >= s.phase.pc.sent then Drain(DReturn(true)) else if timeout then Drain(DReturn(false)) else s.phase)
  {
  }

  class Ring {
    const tx: array<Slot>
    var head: U32
    var tail: U32
    var txFailed: U32
    var gate: bool
    var stopped: bool
    var base: U64
    var x: Xmit
    var len: nat
    var more: bool
    var n: Completer
    var c: Callback
    var dp: Datapath
    /** The machine's state this object stands for. */
    ghost var m: State

    ghost predicate Counts()
      reads this, tx
    {
      && tx.Length == SLOTS && |m.win| <= SLOTS
      && tail == Wrap(m.reclaimed)
      && head == Wrap(Published(m))
      && txFailed == Wrap(m.txFailed)
      && Window(tx[..], m.reclaimed, |m.win|) == m.win
      && (m.x.XPublish? ==> |m.win| < SLOTS && tx[SlotOf(Published(m))] == m.draft)
    }

    ghost predicate Valid()
      reads this, tx
    {
      && Counts()
      && gate == m.gate && stopped == m.stopped && x == m.x && len == m.len && more == m.more && c == m.c
      && NapiAgrees(n, m.n, m.reclaimed)
      && PhaseAgrees(dp, m.phase, m.reclaimed)
    }

    /** emz_tx_free: right whatever the indices have wrapped to. */
    method FreeSlots() returns (free: U32)
      requires Counts()
      ensures free == Free(m)
    {
      Difference32(m.reclaimed, Published(m));
      free := Sub32(SLOTS, Sub32(head, tail));
    }

    // ------------------------------------------------------ emz_start_xmit

    method Call(l: nat, more': bool)
      requires Valid() && Enabled(m, TxProtocol.Call(l, more'))
      modifies this
      ensures Valid() && m == Apply(old(m), TxProtocol.Call(l, more'))
    {
      x, len, more := XFree, l, more';
      m := Apply(m, TxProtocol.Call(l, more'));
    }

    method FirstLook()
      requires Valid() && x.XFree?
      modifies this
      ensures Valid() && m == Xmitting(old(m), true)
    {
      var free := FreeSlots();
      x := if free == 0 then XBusy else XGate;
      m := Xmitting(m, true);
    }

    method SecondLook()
      requires Valid() && x.XFull?
      modifies this
      ensures Valid() && m == Xmitting(old(m), true)
    {
      var free := FreeSlots();
      x := if free == 0 then XStop else XFlush;
      m := Xmitting(m, true);
    }

    method ThirdLook()
      requires Valid() && x.XRecheck?
      modifies this
      ensures Valid() && m == Xmitting(old(m), true)
    {
      var free := FreeSlots();
      x := if free >= TX_WAKE then XStart else XIdle;
      m := Xmitting(m, true);
    }

    method SwitchQueue()
      requires Valid() && (x.XBusy? || x.XStop? || x.XStart?)
      modifies this
      ensures Valid() && m == Xmitting(old(m), true)
    {
      stopped := !x.XStart?;
      x := if x.XStop? then XIssue else XIdle;
      m := Xmitting(m, true);
    }

    method CheckGate()
      requires Valid() && x.XGate?
      modifies this
      ensures Valid() && m == Xmitting(old(m), true)
    {
      x := if len > TX_BUF_LEN || gate then XFlush else XCopy;
      m := Xmitting(m, true);
    }

    /** The copy into the bounce buffer, and its descriptor. */
    method Copy(ok: bool)
      requires Valid() && x.XCopy?
      modifies this
      ensures Valid() && m == Xmitting(old(m), ok)
    {
      x := if ok then XFill else XFlush;
      m := Xmitting(m, ok);
    }

    method Fill()
      requires Valid() && x.XFill? && |m.win| < SLOTS
      modifies this, tx
      ensures Valid() && m == Xmitting(old(m), true)
    {
      hide Xmitting;
      FillDecides(m);
      var slot := Slot(len, false, false, NoDesc, 0);
      Slot32(Published(m));
      WindowPast(tx[..], m.reclaimed, |m.win|, slot);
      ghost var was := tx[..];
      tx[head % SLOTS] := slot;
      assert tx[..] == was[SlotOf(Published(m)) := slot];
      x := XPublish;
      m := Xmitting(m, true);
    }

    method Publish()
      requires Valid() && x.XPublish?
      modifies this
      ensures Valid() && m == Xmitting(old(m), true)
    {
      hide Xmitting;
      PublishDecides(m);
      WindowGrow(tx[..], m.reclaimed, |m.win|);
      Inc32Count(Published(m));
      x, head := XSubmit, Inc32(head);
      m := Xmitting(m, true);
    }

    /** Write the slot of a frame in flight, by its index. */
    method WriteSlot(i: nat, v: Slot, ghost at: nat)
      requires Counts() && InWindow(m, at) && i % SLOTS == SlotOf(at)
      modifies tx
      ensures Window(tx[..], m.reclaimed, |m.win|) == Put(m, at, v)
      ensures |m.win| < SLOTS ==> tx[SlotOf(Published(m))] == old(tx[SlotOf(Published(m))])
    {
      if |m.win| < SLOTS { SlotsApart(m.reclaimed, at - m.reclaimed, |m.win|); }
      WindowPut(tx[..], m.reclaimed, |m.win|, at - m.reclaimed, v);
      ghost var was := tx[..];
      tx[i % SLOTS] := v;
      assert tx[..] == was[SlotOf(at) := v];
    }

    method Submit()
      requires Valid() && x.XSubmit? && m.win != []
      modifies this, tx
      ensures Valid() && m == Xmitting(old(m), true)
    {
      NewestSlot();
      WriteSlot(Sub32(head, 1), tx[Sub32(head, 1) % SLOTS].(desc := Pending), Newest(m));
      x := XFull;
      m := Xmitting(m, true);
    }

    method SubmitRefused()
      requires Valid() && x.XSubmit? && m.win != []
      modifies this
      ensures Valid() && m == Xmitting(old(m), false)
    {
      x := XFailStatus;
      m := Xmitting(m, false);
    }

    lemma NewestSlot()
      requires Counts() && m.win != []
      ensures Sub32(head, 1) % SLOTS == SlotOf(Newest(m)) && tx[SlotOf(Newest(m))] == Get(m, Newest(m))
    {
      Dec32(Newest(m));
      assert Window(tx[..], m.reclaimed, |m.win|)[|m.win| - 1] == tx[SlotOf(m.reclaimed + (|m.win| - 1))];
    }

    /** A submit the provider refused: the slot is completed as failed, gate first. */
    method FailSlot()
      requires Valid() && (x.XFailStatus? || x.XFailDone?) && m.win != []
      modifies this, tx
      ensures Valid() && m == Xmitting(old(m), true)
    {
      hide Xmitting;
      FailDecides(m);
      NewestSlot();
      var slot := tx[Sub32(head, 1) % SLOTS];
      WriteSlot(Sub32(head, 1), if x.XFailStatus? then slot.(failed := true) else Marked(slot), Newest(m));
      x := if x.XFailStatus? then XFailCount else XFull;
      m := Xmitting(m, true);
    }

    method FailCounts()
      requires Valid() && (x.XFailCount? || x.XFailGate?) && m.win != []
      modifies this
      ensures Valid() && m == Xmitting(old(m), true)
    {
      hide Xmitting;
      FailureDecides(m);
      if x.XFailCount? {
        Inc32Count(m.txFailed);
        x, txFailed := XFailGate, Inc32(txFailed);
      } else {
        x, gate := XFailDone, true;
      }
      m := Xmitting(m, true);
    }

    /** dma_async_issue_pending, over every descriptor the provider holds. */
    method IssuePending()
      requires Counts()
      modifies tx
      ensures tx[..] == IssueAll(old(tx[..]))
      ensures Window(tx[..], m.reclaimed, |m.win|) == IssueAll(m.win)
    {
      ghost var was := tx[..];
      ghost var issued := IssueAll(was);
      WindowIssued(was, m.reclaimed, |m.win|);
      for i := 0 to tx.Length
        invariant forall k :: 0 <= k < i ==> tx[k] == issued[k]
        invariant forall k :: i <= k < tx.Length ==> tx[k] == was[k]
      {
        if tx[i].desc.Pending? { tx[i] := tx[i].(desc := Issued); }
      }
      assert tx[..] == issued;
    }

    method Issue()
      requires Valid() && (x.XIssue? || x.XFlush?)
      modifies this, tx
      ensures Valid() && m == Xmitting(old(m), true)
    {
      if x.XIssue? || !more { IssuePending(); }
      x := if x.XIssue? then XRecheck else XIdle;
      m := Xmitting(m, true);
    }

    // ------------------------------------------------------ emz_tx_complete

    method StartCompleting()
      requires Valid() && n.Idle? && Enabled(m, NapiStep)
      modifies this
      ensures Valid() && m == Completing(old(m))
    {
      n := Scan(tail, head, 0, 0);
      m := Completing(m);
    }

    /** The k-th frame in flight, by its wrapped index. */
    lemma SlotAt(k: nat)
      requires Counts() && k < |m.win|
      ensures tx[Wrap(m.reclaimed + k) % SLOTS] == m.win[k]
    {
      hide Wrap, Sub32;
      Slot32(m.reclaimed + k);
      assert Window(tx[..], m.reclaimed, |m.win|)[k] == tx[SlotOf(m.reclaimed + k)];
    }

    /** Two wrapped indices within the ring are equal exactly when the counts are. */
    static lemma SameIndex(t: nat, j: nat, k: nat)
      requires j <= k <= SLOTS
      ensures Wrap(t + j) == Wrap(t + k) <==> j == k
    {
      hide Wrap;
      Difference32(t + j, t + k);
    }

    lemma ScanFacts()
      requires Counts() && NapiAgrees(n, m.n, m.reclaimed) && n.Scan? && m.n.pkts <= m.n.limit <= |m.win|
      ensures n.tail == n.head <==> m.n.pkts == m.n.limit
      ensures m.n.pkts < m.n.limit ==> tx[n.tail % SLOTS] == m.win[m.n.pkts]
    {
      hide Wrap;
      var p := m.n.pkts;
      if p < |m.win| { SlotAt(p); }
      SameIndex(m.reclaimed, p, m.n.limit);
    }

    method ScanSlot()
      requires Valid() && n.Scan? && Enabled(m, NapiStep) && m.n.pkts <= m.n.limit
      modifies this
      ensures Valid() && m == Completing(old(m))
    {
      ScanFacts();
      var slot := tx[n.tail % SLOTS];
      if n.tail == n.head || !slot.done { EndScan(); } else { TakeSlot(slot); }
    }

    method EndScan()
      requires Valid() && n.Scan? && Enabled(m, NapiStep) && (m.n.pkts < m.n.limit ==> !m.win[m.n.pkts].done)
      modifies this
      ensures Valid() && m == Completing(old(m))
    {
      hide Completing, Enabled;
      ScanEnds(m);
      n := if n.pkts == 0 then Idle else Bql(n.tail, n.pkts, n.bytes);
      m := Completing(m);
    }

    method TakeSlot(slot: Slot)
      requires Valid() && n.Scan? && Enabled(m, NapiStep) && m.n.pkts < m.n.limit && slot == m.win[m.n.pkts] && slot.done
      modifies this
      ensures Valid() && m == Completing(old(m))
    {
      hide Completing, Enabled;
      ScanTakes(m);
      Inc32Count(m.reclaimed + m.n.pkts);
      n := Scan(Inc32(n.tail), n.head, n.pkts + 1, n.bytes + slot.len);
      m := Completing(m);
    }

    method Report()
      requires Valid() && n.Bql? && Enabled(m, NapiStep)
      modifies this
      ensures Valid() && m == Completing(old(m))
    {
      n := Release(n.tail, n.pkts);
      m := Completing(m);
    }

    method ReleaseSlots()
      requires Valid() && n.Release? && Enabled(m, NapiStep) && m.phase.Up?
      modifies this
      ensures Valid() && m == Completing(old(m))
    {
      hide Completing, Wrap;
      ReleaseDecides(m);
      WindowDrop(tx[..], m.reclaimed, |m.win|, m.n.pkts);
      tail, n := n.tail, Test;
      m := Completing(m);
    }

    method TestQueue()
      requires Valid() && n.Test? && Enabled(m, NapiStep)
      modifies this
      ensures Valid() && m == Completing(old(m))
    {
      n := if stopped then TestFree else Idle;
      m := Completing(m);
    }

    method TestRoom()
      requires Valid() && n.TestFree? && Enabled(m, NapiStep)
      modifies this
      ensures Valid() && m == Completing(old(m))
    {
      hide Completing, Enabled;
      var free := FreeSlots();
      TestDecides(m);
      n := if free >= TX_WAKE then Wake else Idle;
      m := Completing(m);
    }

    method WakeQueue()
      requires Valid() && n.Wake? && Enabled(m, NapiStep)
      modifies this
      ensures Valid() && m == Completing(old(m))
    {
      n, stopped := Idle, false;
      m := Completing(m);
    }

    // ------------------------------------------------------ provider

    method Move(at: nat)
      requires Valid() && Enabled(m, TxProtocol.Move(at))
      modifies this, tx
      ensures Valid() && m == Apply(old(m), TxProtocol.Move(at))
    {
      assert Window(tx[..], m.reclaimed, |m.win|)[at - m.reclaimed] == tx[SlotOf(at)];
      WriteSlot(at, tx[at % SLOTS].(desc := Moved), at);
      m := Apply(m, TxProtocol.Move(at));
    }

    /** emz_tx_dma_done, whose parameter names slot at % 64. */
    method StartCallback(at: nat, failed: bool)
      requires Valid() && Enabled(m, CbStart(at, failed))
      modifies this, tx
      ensures Valid() && m == Apply(old(m), CbStart(at, failed))
    {
      assert Window(tx[..], m.reclaimed, |m.win|)[at - m.reclaimed] == tx[SlotOf(at)];
      WriteSlot(at, tx[at % SLOTS].(failed := failed, desc := NoDesc), at);
      c := if failed then CCount(at) else CDone(at, false);
      m := Apply(m, CbStart(at, failed));
    }

    method RaiseGate()
      requires Valid() && (c.CCount? || c.CGate?) && Enabled(m, CbStep)
      modifies this
      ensures Valid() && m == Callbacking(old(m))
    {
      if c.CCount? {
        Inc32Count(m.txFailed);
        c, txFailed := CGate(c.at), Inc32(txFailed);
      } else {
        c, gate := CDone(c.at, true), true;
      }
      m := Callbacking(m);
    }

    method MarkDone()
      requires Valid() && c.CDone? && Enabled(m, CbStep)
      modifies this, tx
      ensures Valid() && m == Callbacking(old(m))
    {
      assert Window(tx[..], m.reclaimed, |m.win|)[c.at - m.reclaimed] == tx[SlotOf(c.at)];
      WriteSlot(c.at, Marked(tx[c.at % SLOTS]), c.at);
      c := CIdle;
      m := Callbacking(m);
    }

    // ------------------------------------------------------ emz_tx_drain

    method DrainBegin()
      requires Valid() && dp.DrainIssue? && x.XIdle?
      modifies this, tx
      ensures Valid() && m == Draining(old(m), false, 0)
    {
      IssuePending();
      dp := DrainScan(tail);
      m := Draining(m, false, 0);
    }

    lemma DrainFacts()
      requires Counts() && PhaseAgrees(dp, m.phase, m.reclaimed) && dp.DrainScan? && m.phase.pc.i <= |m.win|
      ensures dp.i == head <==> m.phase.pc.i == |m.win|
      ensures m.phase.pc.i < |m.win| ==> tx[dp.i % SLOTS] == m.win[m.phase.pc.i]
    {
      hide Wrap;
      var i := m.phase.pc.i;
      if i < |m.win| { SlotAt(i); }
      SameIndex(m.reclaimed, i, |m.win|);
    }

    method DrainScanSlot(timeout: bool)
      requires Valid() && dp.DrainScan? && m.phase.pc.i <= |m.win|
      modifies this
      ensures Valid() && m == Draining(old(m), timeout, 0)
    {
      DrainFacts();
      if dp.i == head { DrainScanned(timeout); }
      else if tx[dp.i % SLOTS].done { DrainNext(timeout); }
      else if timeout { DrainGiveUp(); }
    }

    method DrainScanned(timeout: bool)
      requires Valid() && dp.DrainScan? && m.phase.pc.i == |m.win|
      modifies this
      ensures Valid() && m == Draining(old(m), timeout, 0)
    {
      dp := DrainSent;
      m := Draining(m, timeout, 0);
    }

    method DrainNext(timeout: bool)
      requires Valid() && dp.DrainScan? && m.phase.pc.i < |m.win| && m.win[m.phase.pc.i].done
      modifies this
      ensures Valid() && m == Draining(old(m), timeout, 0)
    {
      hide Draining, Wrap, Window;
      DrainAdvances(m, timeout);
      Inc32Count(m.reclaimed + m.phase.pc.i);
      dp := DrainScan(Inc32(dp.i));
      m := Draining(m, timeout, 0);
    }

    method DrainGiveUp()
      requires Valid() && dp.DrainScan? && m.phase.pc.i < |m.win| && !m.win[m.phase.pc.i].done
      modifies this
      ensures Valid() && m == Draining(old(m), true, 0)
    {
      dp := DrainReturn(false);
      m := Draining(m, true, 0);
    }

    /** tx_head - tx_failed, both wrapped. */
    method DrainCount()
      requires Valid() && dp.DrainSent? && Published(m) >= m.txFailed
      modifies this
      ensures Valid() && m == Draining(old(m), false, 0)
    {
      WrapSub(m.txFailed, Published(m));
      dp := DrainWait(Sub32(head, txFailed));
      m := Draining(m, false, 0);
    }

    /** One reading of the MAC's 64-bit count, which stands at base plus what it
        reports of the frames sent since up: the wrapped signed comparison decides
        as the true counts would. */
    method CountShort(frames: U64, sent: U32, ghost reported: nat, ghost truth: nat) returns (short: bool)
      requires frames == (base + reported) % TWO64 && sent == Wrap(truth) && reported <= truth <= reported + LAG
      ensures short <==> reported < truth
    {
      ShortExact(base, reported, truth);
      short := Short(frames, base, sent);
    }

    method DrainCompare(frames: U64, timeout: bool, ghost reported: nat)
      requires Valid() && dp.DrainWait? && Enabled(m, DrainStep(timeout, reported))
      requires frames == (base + reported) % TWO64 && reported <= m.phase.pc.sent <= reported + LAG
      modifies this
      ensures Valid() && m == Draining(old(m), timeout, reported)
    {
      hide Draining, Enabled;
      var short := CountShort(frames, dp.sent, reported, m.phase.pc.sent);
      DrainChooses(m, timeout, reported);
      dp := if !short then DrainReturn(true) else if timeout then DrainReturn(false) else dp;
      m := Draining(m, timeout, reported);
    }

    // ------------------------------------------------------ up and down

    method MacSends()
      requires Valid() && Enabled(m, MacSend)
      modifies `m
      ensures Valid() && m == Apply(old(m), MacSend)
    {
      m := Apply(m, MacSend);
    }

    method StopActors(e: Step)
      requires Valid() && (e.StopNapi? || e.StopTx? || e.DmaStop?) && Enabled(m, e)
      modifies this
      ensures Valid() && m == Apply(old(m), e)
    {
      dp := if e.StopNapi? then NapiStopped else if e.StopTx? then DrainIssue else Released(dp.sure);
      stopped := stopped || e.StopTx?;
      m := Apply(m, e);
    }

    method RequestReset()
      requires Valid()
      modifies this
      ensures Valid() && m == Apply(old(m), TxProtocol.RequestReset)
    {
      gate := true;
      m := Apply(m, TxProtocol.RequestReset);
    }

    method ClearSlots()
      requires tx.Length == SLOTS
      modifies tx
    {
      for i := 0 to tx.Length { tx[i] := Slot(0, false, false, NoDesc, 0); }
    }

    /** emz_datapath_up, from the reset of the rings to the queue's wake. */
    method Restart(frames: U64)
      requires Valid() && Enabled(m, TxProtocol.Restart) && x.XIdle? && n.Idle?
      modifies this, tx
      ensures Valid() && base == frames && m == Restarted(old(m))
    {
      ClearSlots();
      head, tail, gate, txFailed, base, stopped, dp := 0, 0, false, 0, frames, false, Running;
      m := Restarted(m);
    }
  }

  // ------------------------------------------------------ any interleaving

  /** What the accesses rely on; the machine's invariant gives it. */
  ghost predicate Ready(s: State) {
    && (s.x.XFill? ==> |s.win| < SLOTS)
    && (Submitting(s.x) ==> s.win != [])
    && (s.n.NScan? ==> s.n.pkts <= s.n.limit)
    && (s.n.NRelease? ==> s.phase.Up? && !(s.x.XPublish? && |s.win| >= SLOTS))
    && (s.phase.Drain? || s.phase.Down? ==> s.x.XIdle? && s.n.NIdle?)
    && (s.phase.Drain? && s.phase.pc.DSent? ==> Published(s) >= s.txFailed)
    && (s.phase.Drain? && s.phase.pc.DWait? ==> s.phase.pc.sent == s.b.moved && s.b.macSent <= s.b.moved)
  }

  lemma ReadyFromInv(s: State)
    requires Inv(s)
    ensures Ready(s)
  {
    if s.phase.Drain? && (s.phase.pc.DSent? || s.phase.pc.DWait?) { TxSteps.SentIsMoved(s); }
  }

  method ActXmit(r: Ring, ok: bool)
    requires r.Valid() && Ready(r.m) && Enabled(r.m, XmitStep(ok))
    modifies r, r.tx
    ensures r.Valid() && r.m == Xmitting(old(r.m), ok)
  {
    match r.x
    case XFree => r.FirstLook();
    case XBusy => r.SwitchQueue();
    case XGate => r.CheckGate();
    case XCopy => r.Copy(ok);
    case XFill => r.Fill();
    case XPublish => r.Publish();
    case XSubmit => if ok { r.Submit(); } else { r.SubmitRefused(); }
    case XFailStatus => r.FailSlot();
    case XFailCount => r.FailCounts();
    case XFailGate => r.FailCounts();
    case XFailDone => r.FailSlot();
    case XFull => r.SecondLook();
    case XStop => r.SwitchQueue();
    case XIssue => r.Issue();
    case XRecheck => r.ThirdLook();
    case XStart => r.SwitchQueue();
    case XFlush => r.Issue();
    case XIdle => assert false;
  }

  method ActNapi(r: Ring)
    requires r.Valid() && Ready(r.m) && Enabled(r.m, NapiStep)
    modifies r
    ensures r.Valid() && r.m == Completing(old(r.m))
  {
    match r.n
    case Idle => r.StartCompleting();
    case Scan(_, _, _, _) => r.ScanSlot();
    case Bql(_, _, _) => r.Report();
    case Release(_, _) => r.ReleaseSlots();
    case Test => r.TestQueue();
    case TestFree => r.TestRoom();
    case Wake => r.WakeQueue();
  }

  method ActDrain(r: Ring, timeout: bool, reported: nat)
    requires r.Valid() && Ready(r.m) && Enabled(r.m, DrainStep(timeout, reported))
    modifies r, r.tx
    ensures r.Valid() && r.m == Draining(old(r.m), timeout, reported)
  {
    match r.dp
    case DrainIssue => r.DrainBegin();
    case DrainScan(_) => r.DrainScanSlot(timeout);
    case DrainSent => r.DrainCount();
    case DrainWait(_) => r.DrainCompare((r.base + reported) % TWO64, timeout, reported);
    case _ => assert false;
  }

  method ActProvider(r: Ring, e: Step)
    requires r.Valid() && Enabled(r.m, e) && TxSteps.ByProvider(e)
    modifies r, r.tx
    ensures r.Valid() && r.m == Apply(old(r.m), e)
  {
    if e.Move? { r.Move(e.at); }
    else if e.CbStart? { r.StartCallback(e.at, e.failed); }
    else if r.c.CDone? { r.MarkDone(); }
    else { r.RaiseGate(); }
  }

  method ActOther(r: Ring, e: Step, frames: U64)
    requires r.Valid() && Ready(r.m) && Enabled(r.m, e) && TxSteps.ByOthers(e)
    modifies r, r.tx
    ensures r.Valid() && r.m == Apply(old(r.m), e)
  {
    if e.Call? { r.Call(e.len, e.more); }
    else if e.MacSend? { r.MacSends(); }
    else if e.Restart? { r.Restart(frames); }
    else if e.RequestReset? { r.RequestReset(); }
    else { r.StopActors(e); }
  }

  /** Any step of the machine, taken on the array and the 32-bit fields. */
  method Act(r: Ring, e: Step, frames: U64)
    requires r.Valid() && Inv(r.m) && Enabled(r.m, e)
    modifies r, r.tx
    ensures r.Valid() && Inv(r.m) && r.m == Apply(old(r.m), e)
  {
    hide Inv, Ready;
    ReadyFromInv(r.m);
    TxBooks.StepKeeps(r.m, e);
    match e
    case XmitStep(ok) => ActXmit(r, ok);
    case NapiStep => ActNapi(r);
    case DrainStep(timeout, reported) => ActDrain(r, timeout, reported);
    case Move(_) => ActProvider(r, e);
    case CbStart(_, _) => ActProvider(r, e);
    case CbStep => ActProvider(r, e);
    case _ => ActOther(r, e, frames);
  }

  /** A whole interleaving, step by step. */
  method ActAll(r: Ring, es: seq<Step>, frames: U64)
    requires r.Valid() && Inv(r.m) && TxTheorems.Runs(r.m, es)
    modifies r, r.tx
    ensures r.Valid() && Inv(r.m) && r.m == TxTheorems.Final(old(r.m), es)
  {
    for i := 0 to |es|
      invariant r.Valid() && Inv(r.m) && TxTheorems.Runs(r.m, es[i..])
      invariant TxTheorems.Final(r.m, es[i..]) == TxTheorems.Final(old(r.m), es)
    {
      assert es[i..][0] == es[i] && es[i..][1..] == es[i + 1..];
      Act(r, es[i], frames);
    }
    assert es[|es|..] == [];
  }

  lemma WrapSub(f: nat, p: nat)
    requires f <= p
    ensures Sub32(Wrap(p), Wrap(f)) == Wrap(p - f)
  {
    WrapMod(f);
    WrapMod(p);
    WrapMod(p - f);
    DifferenceMod(p, f);
  }
}
