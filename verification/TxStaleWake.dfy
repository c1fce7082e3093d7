/** The wake is three accesses, and between them xmit may restart the queue and
    fill the ring.  Here is such a run: it reaches the BUSY branch, and from there
    a queue that is stopped with nothing in flight to wake it. */
module TxStaleWake {
  import opened TxProtocol
  import opened TxTheorems

  lemma ReachesSelf(s: State)
    ensures Reaches(s, s)
  {
    assert Runs(s, []) && Final(s, []) == s;
  }

  lemma ReachesStep(s: State, e: Step, t: State)
    requires Enabled(s, e) && Reaches(Apply(s, e), t)
    ensures Reaches(s, t)
  {
    var es :| Runs(Apply(s, e), es) && Final(Apply(s, e), es) == t;
    assert ([e] + es)[1..] == es;
    assert Runs(s, [e] + es) && Final(s, [e] + es) == t;
  }

  lemma OneStep(s: State, e: Step)
    requires Enabled(s, e)
    ensures Reaches(s, Apply(s, e))
  {
    ReachesSelf(Apply(s, e));
    ReachesStep(s, e, Apply(s, e));
  }

  lemma {:induction false} RunThenReach(s: State, es: seq<Step>, u: State)
    requires Runs(s, es) && Reaches(Final(s, es), u)
    ensures Reaches(s, u)
    decreases |es|
  {
    if es != [] {
      RunThenReach(Apply(s, es[0]), es[1..], u);
      ReachesStep(s, es[0], u);
    }
  }

  lemma ReachesVia(s: State, t: State, u: State)
    requires Reaches(s, t) && Reaches(t, u)
    ensures Reaches(s, u)
  {
    var es :| Runs(s, es) && Final(s, es) == t;
    RunThenReach(s, es, u);
  }

  const STARTED := Slot(60, false, false, Issued, 0)
  const FINISHED := Slot(60, false, true, NoDesc, 1)

  /** The actors' positions in the runs below: nothing failed, nothing stopping. */
  predicate Calm(s: State) { s.phase.Up? && s.c.CIdle? && !s.gate }

  /** The oldest done frames are done, the rest with the DMA. */
  predicate Split(w: seq<Slot>, done: nat) {
    done <= |w| && forall i :: 0 <= i < |w| ==> w[i] == if i < done then FINISHED else STARTED
  }

  lemma IssueTail(w: seq<Slot>)
    requires Split(w, 0)
    ensures IssueAll(w + [STARTED.(desc := Pending)]) == w + [STARTED]
  {
    var r := IssueAll(w + [STARTED.(desc := Pending)]);
    assert forall i :: 0 <= i < |r| ==> r[i] == (w + [STARTED])[i];
  }

  /** xmit from its call to its second look at the ring. */
  lemma Submit(s: State) returns (t: State)
    requires Calm(s) && s.x.XIdle? && !s.stopped && |s.win| < TX_RING
    ensures Reaches(s, t) && Calm(t) && t.x.XFull? && !t.stopped && t.n == s.n && !t.more
    ensures t.win == s.win + [STARTED.(desc := Pending)]
  {
    var s1 := Apply(s, Call(60, false));
    OneStep(s, Call(60, false));
    var s2 := Apply(s1, XmitStep(true));
    OneStep(s1, XmitStep(true));
    var s3 := Apply(s2, XmitStep(true));
    OneStep(s2, XmitStep(true));
    ReachesVia(s, s1, s2);
    ReachesVia(s, s2, s3);
    t := Publish(s3);
    ReachesVia(s, s3, t);
  }

  lemma Publish(s: State) returns (t: State)
    requires Calm(s) && s.x.XCopy? && !s.stopped && |s.win| < TX_RING && s.len == 60 && !s.more
    ensures Reaches(s, t) && Calm(t) && t.x.XFull? && !t.stopped && t.n == s.n && !t.more
    ensures t.win == s.win + [STARTED.(desc := Pending)]
  {
    var s1 := Apply(s, XmitStep(true));
    OneStep(s, XmitStep(true));
    var s2 := Apply(s1, XmitStep(true));
    OneStep(s1, XmitStep(true));
    var s3 := Apply(s2, XmitStep(true));
    OneStep(s2, XmitStep(true));
    t := Apply(s3, XmitStep(true));
    OneStep(s3, XmitStep(true));
    ReachesVia(s, s1, s2);
    ReachesVia(s, s2, s3);
    ReachesVia(s, s3, t);
    assert s3.win == s.win + [Slot(60, false, false, NoDesc, 0)];
  }

  /** A frame sent with room to spare. */
  lemma SendOne(s: State) returns (t: State)
    requires Calm(s) && s.x.XIdle? && !s.stopped && |s.win| < TX_RING - 1 && Split(s.win, 0)
    ensures Reaches(s, t) && Calm(t) && t.x.XIdle? && !t.stopped && t.n == s.n
    ensures Split(t.win, 0) && |t.win| == |s.win| + 1
  {
    var s1 := Submit(s);
    IssueTail(s.win);
    var s2 := Apply(s1, XmitStep(true));
    OneStep(s1, XmitStep(true));
    t := Apply(s2, XmitStep(true));
    OneStep(s2, XmitStep(true));
    ReachesVia(s, s1, s2);
    ReachesVia(s, s2, t);
  }

  lemma {:induction false} SendTo(s: State, n: nat) returns (t: State)
    requires Calm(s) && s.x.XIdle? && !s.stopped && |s.win| <= n < TX_RING && Split(s.win, 0)
    ensures Reaches(s, t) && Calm(t) && t.x.XIdle? && !t.stopped && t.n == s.n
    ensures Split(t.win, 0) && |t.win| == n
    decreases n - |s.win|
  {
    if |s.win| == n {
      ReachesSelf(s);
      t := s;
    } else {
      var m := SendOne(s);
      t := SendTo(m, n);
      ReachesVia(s, m, t);
    }
  }

  /** The frame that fills the ring: xmit has stopped the queue, issued what it
      owed, and is about to look again. */
  lemma FillRing(s: State) returns (t: State)
    requires Calm(s) && s.x.XIdle? && !s.stopped && Split(s.win, 0) && |s.win| < TX_RING
    ensures Reaches(s, t) && Calm(t) && t.x.XRecheck? && t.stopped && t.n == s.n
    ensures Split(t.win, 0) && |t.win| == TX_RING
  {
    var s0 := SendTo(s, TX_RING - 1);
    var s1 := Submit(s0);
    IssueTail(s0.win);
    t := StopAndIssue(s1);
    ReachesVia(s, s0, s1);
    ReachesVia(s, s1, t);
  }

  lemma StopAndIssue(s: State) returns (t: State)
    requires Calm(s) && s.x.XFull? && |s.win| == TX_RING
    ensures Reaches(s, t) && Calm(t) && t.x.XRecheck? && t.stopped && t.n == s.n && t.win == IssueAll(s.win)
  {
    var s1 := Apply(s, XmitStep(true));
    OneStep(s, XmitStep(true));
    var s2 := Apply(s1, XmitStep(true));
    OneStep(s1, XmitStep(true));
    t := Apply(s2, XmitStep(true));
    OneStep(s2, XmitStep(true));
    ReachesVia(s, s1, s2);
    ReachesVia(s, s2, t);
  }

  /** The DMA completes the oldest unfinished frame. */
  lemma FinishOne(s: State, done: nat) returns (t: State)
    requires Calm(s) && Split(s.win, done) && done < |s.win|
    ensures Reaches(s, t) && t == s.(win := t.win, b := t.b) && Split(t.win, done + 1) && |t.win| == |s.win|
  {
    var at := s.reclaimed + done;
    var s1 := Apply(s, Move(at));
    OneStep(s, Move(at));
    var s2 := Apply(s1, CbStart(at, false));
    OneStep(s1, CbStart(at, false));
    t := Apply(s2, CbStep);
    OneStep(s2, CbStep);
    ReachesVia(s, s1, s2);
    ReachesVia(s, s2, t);
  }

  lemma {:induction false} FinishTo(s: State, done: nat, n: nat) returns (t: State)
    requires Calm(s) && Split(s.win, done) && done <= n <= |s.win|
    ensures Reaches(s, t) && t == s.(win := t.win, b := t.b) && Split(t.win, n) && |t.win| == |s.win|
    decreases n - done
  {
    if done == n {
      ReachesSelf(s);
      t := s;
    } else {
      var m := FinishOne(s, done);
      t := FinishTo(m, done + 1, n);
      ReachesVia(s, m, t);
    }
  }

  lemma {:induction false} ScanTo(s: State, n: nat) returns (t: State)
    requires s.n.NScan? && s.n.pkts <= n <= s.n.limit == |s.win| && Split(s.win, n)
    ensures Reaches(s, t) && t == s.(n := t.n, b := t.b) && t.n.NScan? && t.n.pkts == n && t.n.limit == s.n.limit
    decreases n - s.n.pkts
  {
    if s.n.pkts == n {
      ReachesSelf(s);
      t := s;
    } else {
      var m := Apply(s, NapiStep);
      OneStep(s, NapiStep);
      t := ScanTo(m, n);
      ReachesVia(s, m, t);
    }
  }

  /** NAPI takes the done frames off a full ring and is about to test the queue. */
  lemma Reclaim(s: State, n: nat) returns (t: State)
    requires Calm(s) && s.n.NIdle? && 0 < n <= |s.win| && Split(s.win, n)
    ensures Reaches(s, t) && Calm(t) && t.n.NTest? && t.x == s.x && t.stopped == s.stopped
    ensures Split(t.win, 0) && |t.win| == |s.win| - n
  {
    var s1 := Apply(s, NapiStep);
    OneStep(s, NapiStep);
    var s2 := ScanTo(s1, n);
    var s3 := Apply(s2, NapiStep);
    OneStep(s2, NapiStep);
    var s4 := Apply(s3, NapiStep);
    OneStep(s3, NapiStep);
    t := Apply(s4, NapiStep);
    OneStep(s4, NapiStep);
    ReachesVia(s, s1, s2);
    ReachesVia(s, s2, s3);
    ReachesVia(s, s3, s4);
    ReachesVia(s, s4, t);
  }

  /** xmit stops on a full ring; 16 frames complete; NAPI sees the stopped queue
      and the room; xmit's recheck restarts the queue first and the stack fills
      the ring again. */
  lemma Overtaken(s: State) returns (t: State)
    requires Calm(s) && s.x.XIdle? && !s.stopped && s.n.NIdle? && s.win == []
    ensures Reaches(s, t) && Calm(t) && t.x.XIdle? && t.stopped && t.n.NWake?
    ensures Split(t.win, 0) && |t.win| == TX_RING
  {
    var s1 := FillRing(s);
    var s2 := FinishTo(s1, 0, TX_WAKE);
    var s3 := Reclaim(s2, TX_WAKE);
    t := RefillAfter(s3);
    ReachesVia(s, s1, s2);
    ReachesVia(s, s2, s3);
    ReachesVia(s, s3, t);
  }

  lemma RefillAfter(s: State) returns (t: State)
    requires Calm(s) && s.x.XRecheck? && s.stopped && s.n.NTest? && |s.win| == TX_RING - TX_WAKE && Split(s.win, 0)
    ensures Reaches(s, t) && Calm(t) && t.x.XIdle? && t.stopped && t.n.NWake?
    ensures Split(t.win, 0) && |t.win| == TX_RING
  {
    var s1 := TestAndRestart(s);
    var s2 := FillRing(s1);
    t := Apply(s2, XmitStep(true));
    OneStep(s2, XmitStep(true));
    ReachesVia(s, s1, s2);
    ReachesVia(s, s2, t);
  }

  lemma TestAndRestart(s: State) returns (t: State)
    requires Calm(s) && s.x.XRecheck? && s.stopped && s.n.NTest? && |s.win| == TX_RING - TX_WAKE && Split(s.win, 0)
    ensures Reaches(s, t) && Calm(t) && t.x.XIdle? && !t.stopped && t.n.NWake? && t.win == s.win
  {
    var s1 := Apply(s, NapiStep);
    OneStep(s, NapiStep);
    var s2 := Apply(s1, NapiStep);
    OneStep(s1, NapiStep);
    t := RecheckAndStart(s2);
    ReachesVia(s, s1, s2);
    ReachesVia(s, s2, t);
  }

  lemma RecheckAndStart(s: State) returns (t: State)
    requires Calm(s) && s.x.XRecheck? && Free(s) >= TX_WAKE
    ensures Reaches(s, t) && Calm(t) && t.x.XIdle? && !t.stopped && t.n == s.n && t.win == s.win
  {
    var s1 := Apply(s, XmitStep(true));
    OneStep(s, XmitStep(true));
    t := Apply(s1, XmitStep(true));
    OneStep(s1, XmitStep(true));
    ReachesVia(s, s1, t);
  }

  /** The stale wake comes, and the next call finds no slot. */
  lemma Overrun(s: State) returns (t: State)
    requires Calm(s) && s.x.XIdle? && s.stopped && s.n.NWake? && Split(s.win, 0) && |s.win| == TX_RING
    ensures StaleWake(s, NapiStep)
    ensures Reaches(s, t) && Calm(t) && t.x.XBusy? && !t.stopped && t.n.NIdle? && t.win == s.win
  {
    var s1 := Apply(s, NapiStep);
    OneStep(s, NapiStep);
    var s2 := Apply(s1, Call(60, false));
    OneStep(s1, Call(60, false));
    t := Apply(s2, XmitStep(true));
    OneStep(s2, XmitStep(true));
    ReachesVia(s, s1, s2);
    ReachesVia(s, s2, t);
  }

  /** A stale wake happens in a real run, and after it the BUSY branch is taken. */
  lemma BusyReachable() returns (s: State, t: State)
    ensures Reaches(INIT, s) && StaleWake(s, NapiStep)
    ensures Reaches(s, t) && t.x.XBusy? && Calm(t) && !t.stopped && t.n.NIdle? && Split(t.win, 0) && |t.win| == TX_RING
  {
    var up := Apply(INIT, Restart);
    OneStep(INIT, Restart);
    s := Overtaken(up);
    ReachesVia(INIT, up, s);
    t := Overrun(s);
  }

  /** All 64 frames complete while xmit is about to stop the queue for want of a
      slot: the queue ends stopped with nothing in flight to wake it. */
  lemma WakeupLost() returns (t: State)
    ensures Reaches(INIT, t)
    ensures t.phase.Up? && t.stopped && t.win == [] && t.x.XIdle? && t.n.NIdle? && t.c.CIdle? && !Awaited(t)
  {
    var s0, s1 := BusyReachable();
    ReachesVia(INIT, s0, s1);
    var s2 := FinishTo(s1, 0, TX_RING);
    var s3 := Reclaim(s2, TX_RING);
    t := StopTooLate(s3);
    ReachesVia(INIT, s1, s2);
    ReachesVia(INIT, s2, s3);
    ReachesVia(INIT, s3, t);
  }

  lemma StopTooLate(s: State) returns (t: State)
    requires Calm(s) && s.x.XBusy? && !s.stopped && s.n.NTest?
    ensures Reaches(s, t) && Calm(t) && t.x.XIdle? && t.stopped && t.n.NIdle? && t.win == s.win
  {
    var s1 := Apply(s, NapiStep);
    OneStep(s, NapiStep);
    t := Apply(s1, XmitStep(true));
    OneStep(s1, XmitStep(true));
    ReachesVia(s, s1, t);
  }
}
