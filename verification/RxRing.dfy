/** The receive ring as the driver keeps it: an array of 128 slots and the index of
    the next one to complete.  Each method is one access and takes the step of
    RxProtocol it stands for. */
module RxRing {
  import opened RxProtocol
  import RxInvariant
  import RxTheorems

  /** The array from index t on, wrapping. */
  function FromTail(a: seq<Slot>, t: nat): (r: seq<Slot>)
    requires t < |a|
    ensures |r| == |a|
    ensures forall k :: 0 <= k < |a| ==> r[k] == a[if t + k < |a| then t + k else t + k - |a|]
  {
    a[t..] + a[..t]
  }

  lemma FromTailPut(a: seq<Slot>, t: nat, k: nat, v: Slot)
    requires t < |a| && k < |a|
    ensures FromTail(a[(if t + k < |a| then t + k else t + k - |a|) := v], t) == FromTail(a, t)[k := v]
  {
  }

  lemma FromTailNext(a: seq<Slot>, t: nat)
    requires t < |a| == RX_RING
    ensures FromTail(a, (t + 1) % RX_RING) == FromTail(a, t)[1..] + [FromTail(a, t)[0]]
  {
    var u := if t + 1 < RX_RING then t + 1 else 0;
    assert u == (t + 1) % RX_RING;
    var r, q := FromTail(a, u), FromTail(a, t)[1..] + [FromTail(a, t)[0]];
    forall k | 0 <= k < RX_RING ensures r[k] == q[k] { }
  }

  /** Where slot i lies, counted from the tail on. */
  function Place(i: nat, tail: nat): (k: nat)
    requires i < RX_RING && tail < RX_RING
    ensures k < RX_RING
  {
    if i >= tail then i - tail else i + RX_RING - tail
  }

  /** The slot of the d-th descriptor past the taken ones is d places from the tail. */
  lemma SlotPlace(taken: nat, d: nat)
    requires d < RX_RING
    ensures Place((taken + d) % RX_RING, taken % RX_RING) == d
    ensures (taken % RX_RING + d) % RX_RING == (taken + d) % RX_RING
  {
    var q, t := taken / RX_RING, taken % RX_RING;
    assert taken + d == q * RX_RING + (t + d);
    if t + d < RX_RING { assert (taken + d) % RX_RING == t + d; }
    else { assert (taken + d) % RX_RING == t + d - RX_RING; }
  }

  lemma NextSlot(taken: nat)
    ensures (taken % RX_RING + 1) % RX_RING == (taken + 1) % RX_RING
  {
    SlotPlace(taken, 1);
  }

  lemma FromStart(a: seq<Slot>)
    requires |a| == RX_RING
    ensures FromTail(a, 0) == a
  {
  }

  class Ring {
    const rx: array<Slot>
    var tail: nat
    var gate: bool
    var n: Napi
    var c: Callback
    var budget: nat
    var completions: nat   // the provider's, since up
    /** The machine's state this object stands for. */
    ghost var m: State

    ghost predicate Valid()
      reads this, rx
    {
      && rx.Length == RX_RING && tail < RX_RING
      && m.ring == FromTail(rx[..], tail)
      && tail == m.taken % RX_RING && completions == m.started
      && gate == m.gate && n == m.n && c == m.c && budget == m.budget
    }

    /** Write the k-th slot from the tail on. */
    method WriteSlot(k: nat, v: Slot)
      requires rx.Length == RX_RING && tail < RX_RING && k < RX_RING
      modifies rx
      ensures FromTail(rx[..], tail) == FromTail(old(rx[..]), tail)[k := v]
    {
      FromTailPut(rx[..], tail, k, v);
      ghost var was := rx[..];
      var i := (tail + k) % RX_RING;
      rx[i] := v;
      assert rx[..] == was[i := v];
    }

    method StartPoll(b: nat)
      requires Valid() && Enabled(m, Poll(b))
      modifies this
      ensures Valid() && m == Apply(old(m), Poll(b))
    {
      n, budget := NCheck, b;
      m := Apply(m, Poll(b));
    }

    method Check()
      requires Valid() && n.NCheck?
      modifies this, rx
      ensures Valid() && m == Checking(old(m))
    {
      var slot := rx[tail];
      if budget == 0 || !slot.done {
        n := NIdle;
      } else if slot.failed {
        WriteSlot(0, slot.(done := false));
        n := NIdle;
      } else {
        n := NTake;
      }
      m := Checking(m);
    }

    method TakeFrame(fate: Fate)
      requires Valid() && Enabled(m, Take(fate))
      modifies this, rx
      ensures Valid() && m == Taking(old(m), fate)
    {
      var slot := rx[tail];
      if slot.len >= ETH_HLEN && !fate.NoBuffer? {
        WriteSlot(0, slot.(buf := fate.spare));
      }
      n, budget := NSubmit, if budget > 0 then budget - 1 else 0;
      m := Taking(m, fate);
    }

    /** emz_rx_submit: the old completion is consumed. */
    method Clear()
      requires Valid() && n.NSubmit?
      modifies this, rx
      ensures Valid() && m == Submitting(old(m))
    {
      WriteSlot(0, rx[tail].(done := false));
      n := NGate;
      m := Submitting(m);
    }

    method Look()
      requires Valid() && n.NGate?
      modifies this
      ensures Valid() && m == Looking(old(m))
    {
      n := if gate then NFail else NPost;
      m := Looking(m);
    }

    method Repost(ok: bool)
      requires Valid() && n.NPost?
      modifies this, rx
      ensures Valid() && m == Posting(old(m), ok)
    {
      if ok {
        WriteSlot(0, rx[tail].(desc := Posted(rx[tail].buf)));
        FromTailNext(rx[..], tail);
        NextSlot(m.taken);
        tail, n := (tail + 1) % RX_RING, NCheck;
      } else {
        n := NFail;
      }
      m := Posting(m, ok);
    }

    method GiveUp()
      requires Valid() && n.NFail?
      modifies this
      ensures Valid() && m == Apply(old(m), NapiStep)
    {
      n, gate := NIdle, true;
      m := Apply(m, NapiStep);
    }

    /** The slot of the d-th descriptor past the taken ones. */
    lemma Completing(d: nat)
      requires Valid() && d < RX_RING
      ensures Place((m.taken + d) % RX_RING, tail) == d && rx[(m.taken + d) % RX_RING] == m.ring[d]
    {
      SlotPlace(m.taken, d);
    }

    lemma NextCompletes(residue: nat, failed: bool)
      requires Valid() && Enabled(m, CbStart(residue, failed))
      ensures var d := Completed(m);
        && 0 <= d < RX_RING
        && Place(completions % RX_RING, tail) == d && rx[completions % RX_RING] == m.ring[d]
    {
      Completing(Completed(m));
    }

    /** emz_rx_dma_done for the next descriptor in order, whose parameter names its
        slot. */
    method StartCallback(residue: nat, failed: bool)
      requires Valid() && Enabled(m, CbStart(residue, failed))
      modifies this, rx
      ensures Valid() && m == CallbackStart(old(m), residue, failed)
    {
      hide Place, FromTail;
      NextCompletes(residue, failed);
      var i := completions % RX_RING;
      WriteSlot(Place(i, tail), rx[i].(len := Written(residue), failed := failed, desc := NoDesc, frame := completions));
      c := if failed then CGate(completions) else CDone(completions);
      completions := completions + 1;
      m := CallbackStart(m, residue, failed);
    }

    method RaiseGate()
      requires Valid() && c.CGate? && Enabled(m, CbStep)
      modifies this
      ensures Valid() && m == Callbacking(old(m))
    {
      c, gate := CDone(c.at), true;
      m := Callbacking(m);
    }

    method MarkDone()
      requires Valid() && c.CDone? && Enabled(m, CbStep)
      modifies this, rx
      ensures Valid() && m == Callbacking(old(m))
    {
      hide Place, FromTail;
      Completing(c.at - m.taken);
      var i := c.at % RX_RING;
      WriteSlot(Place(i, tail), rx[i].(done := true));
      c := CIdle;
      m := Callbacking(m);
    }

    method RequestReset()
      requires Valid()
      modifies this
      ensures Valid() && m == Apply(old(m), Step.RequestReset)
    {
      gate := true;
      m := Apply(m, Step.RequestReset);
    }

    /** The stack gives a fragment back: nothing here changes hands. */
    method StackFrees(b: Buf)
      requires Valid() && Enabled(m, Step.StackFrees(b))
      modifies `m
      ensures Valid() && m == Apply(old(m), Step.StackFrees(b))
    {
      m := Apply(m, Step.StackFrees(b));
    }

    /** Cleared slots, a fragment of the new pool in each, all posted. */
    method FillRing(next: Buf)
      requires rx.Length == RX_RING
      modifies rx
      ensures rx[..] == NewRing(next)
    {
      ghost var ring := NewRing(next);
      for i := 0 to RX_RING
        invariant forall k :: 0 <= k < i ==> rx[k] == ring[k]
      {
        rx[i] := Slot(next + i, 0, false, false, Posted(next + i), 0);
      }
      assert rx[..] == ring;
    }

    /** emz_datapath_up's part here, next being the first fragment not yet used. */
    method Rebuild(next: Buf)
      requires Valid() && Enabled(m, Step.Rebuild) && next == m.next
      modifies this, rx
      ensures Valid() && m == Rebuilt(old(m))
    {
      FillRing(next);
      FromStart(rx[..]);
      tail, completions, gate := 0, 0, false;
      m := Rebuilt(m);
    }
  }

  // ------------------------------------------------------ any interleaving

  method ActNapi(r: Ring, e: Step)
    requires r.Valid() && Enabled(r.m, e) && (e.Poll? || e.NapiStep? || e.Take? || e.Post?)
    modifies r, r.rx
    ensures r.Valid() && r.m == Apply(old(r.m), e)
  {
    if e.Poll? { r.StartPoll(e.budget); }
    else if e.Take? { r.TakeFrame(e.fate); }
    else if e.Post? { r.Repost(e.ok); }
    else if r.n.NCheck? { r.Check(); }
    else if r.n.NSubmit? { r.Clear(); }
    else if r.n.NGate? { r.Look(); }
    else { r.GiveUp(); }
  }

  method ActOther(r: Ring, e: Step, next: Buf)
    requires r.Valid() && Enabled(r.m, e) && !(e.Poll? || e.NapiStep? || e.Take? || e.Post?)
    requires e.Rebuild? ==> next == r.m.next
    modifies r, r.rx
    ensures r.Valid() && r.m == Apply(old(r.m), e)
  {
    if e.CbStart? { r.StartCallback(e.residue, e.failed); }
    else if e.CbStep? { if r.c.CGate? { r.RaiseGate(); } else { r.MarkDone(); } }
    else if e.StackFrees? { r.StackFrees(e.buf); }
    else if e.RequestReset? { r.RequestReset(); }
    else { r.Rebuild(next); }
  }

  /** Any step of the machine, taken on the array, keeps what RxTheorems rests on; next
      is the first fragment the page pool has not yet given out. */
  method Act(r: Ring, e: Step, next: Buf)
    requires r.Valid() && RxInvariant.Inv(r.m) && Enabled(r.m, e) && next == r.m.next
    modifies r, r.rx
    ensures r.Valid() && RxInvariant.Inv(r.m) && r.m == Apply(old(r.m), e)
  {
    hide RxInvariant.Inv;
    RxTheorems.StepKeeps(r.m, e);
    if e.Poll? || e.NapiStep? || e.Take? || e.Post? { ActNapi(r, e); } else { ActOther(r, e, next); }
  }

  /** A whole interleaving, step by step; nexts are the page pool's answers. */
  method ActAll(r: Ring, es: seq<Step>, nexts: seq<Buf>)
    requires r.Valid() && RxInvariant.Inv(r.m) && RxTheorems.Runs(r.m, es)
    requires |nexts| == |es| && Answers(r.m, es, nexts)
    modifies r, r.rx
    ensures r.Valid() && RxInvariant.Inv(r.m) && r.m == RxTheorems.Final(old(r.m), es)
  {
    hide RxInvariant.Inv, Apply;
    for i := 0 to |es|
      invariant r.Valid() && RxInvariant.Inv(r.m) && RxTheorems.Runs(r.m, es[i..])
      invariant Answers(r.m, es[i..], nexts[i..])
      invariant RxTheorems.Final(r.m, es[i..]) == RxTheorems.Final(old(r.m), es)
    {
      assert es[i..][0] == es[i] && es[i..][1..] == es[i + 1..];
      assert nexts[i..][0] == nexts[i] && nexts[i..][1..] == nexts[i + 1..];
      Act(r, es[i], nexts[i]);
    }
    assert es[|es|..] == [];
  }

  /** Before each step of a run the page pool has given out fragments up to nexts. */
  ghost predicate Answers(s: State, es: seq<Step>, nexts: seq<Buf>)
    requires RxTheorems.Runs(s, es) && |nexts| == |es|
    decreases |es|
  {
    es != [] ==> nexts[0] == s.next && Answers(Apply(s, es[0]), es[1..], nexts[1..])
  }
}
