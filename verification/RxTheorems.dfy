/** What the receive path promises, over every run of the machine. */
module RxTheorems {
  import opened RxProtocol
  import opened RxInvariant

  // ------------------------------------------------------ completed slots

  lemma SlotsKept(s: State, e: Step)
    requires SlotsInv(s) && PlaceInv(s) && Enabled(s, e) && !e.NapiStep? && !e.Take? && !e.Post?
    ensures SlotsInv(Apply(s, e))
  {
    var t := Apply(s, e);
    forall k | 0 <= k < RX_RING ensures SlotOk(t, k) { assert SlotOk(s, k); }
  }

  lemma SlotsByNapi(s: State, e: Step)
    requires SlotsInv(s) && PlaceInv(s) && Enabled(s, e) && (e.NapiStep? || e.Take?)
    ensures SlotsInv(Apply(s, e))
  {
    var t := Apply(s, e);
    assert SlotOk(s, 0);
    forall k | 0 <= k < RX_RING ensures SlotOk(t, k) { assert SlotOk(s, k); }
  }

  lemma SlotsByPost(s: State, e: Step)
    requires SlotsInv(s) && PlaceInv(s) && Enabled(s, e) && e.Post?
    ensures SlotsInv(Apply(s, e))
  {
    var t := Apply(s, e);
    assert SlotOk(s, 0);
    forall k | 0 <= k < RX_RING ensures SlotOk(t, k) {
      assert SlotOk(s, k);
      if e.ok && k + 1 < RX_RING { assert SlotOk(s, k + 1); }
    }
  }

  lemma PlaceKept(s: State, e: Step)
    requires SlotsInv(s) && PlaceInv(s) && Enabled(s, e) && !e.NapiStep? && !e.Take? && !e.Post?
    ensures PlaceInv(Apply(s, e))
  {
    assert SlotOk(s, 0);
    if e.CbStart? { assert SlotOk(s, Completed(s)); }
  }

  lemma PlaceByNapi(s: State, e: Step)
    requires SlotsInv(s) && PlaceInv(s) && Enabled(s, e) && (e.NapiStep? || e.Take? || e.Post?)
    ensures PlaceInv(Apply(s, e))
  {
    assert SlotOk(s, 0);
    if Completed(s) > 1 { assert SlotOk(s, 1); }
  }

  // ------------------------------------------------------ buffers

  /** A slot's buffer replaced by one nobody else has. */
  lemma Swap(s: State, b: Buf)
    requires OwnerInv(s) && Available(s, b)
    ensures var r := s.ring[0 := s.ring[0].(buf := b)];
      && !InRing(s.ring, b)
      && (forall j, k :: 0 <= j < k < RX_RING ==> r[j].buf != r[k].buf)
      && (forall x :: InRing(r, x) <==> x == b || (InRing(s.ring, x) && x != s.ring[0].buf))
  {
    var r := s.ring[0 := s.ring[0].(buf := b)];
    assert !InRing(s.ring, b);
    forall x ensures InRing(r, x) <==> x == b || (InRing(s.ring, x) && x != s.ring[0].buf) {
      if InRing(s.ring, x) && x != s.ring[0].buf {
        var k :| 0 <= k < RX_RING && s.ring[k].buf == x;
        assert r[k].buf == x;
      }
      assert r[0].buf == b;
    }
  }

  ghost predicate SameOwners(s: State, t: State) {
    t.pool == s.pool && t.held == s.held && t.gone == s.gone && t.next == s.next
  }

  /** The ring's buffers do not depend on the slots' other fields or their order. */
  lemma SameBufs(s: State, t: State)
    requires OwnerInv(s) && SameOwners(s, t)
    requires (forall k :: 0 <= k < RX_RING ==> t.ring[k].buf == s.ring[k].buf)
          || (forall k :: 0 <= k < RX_RING ==> t.ring[k].buf == if k + 1 < RX_RING then s.ring[k + 1].buf else s.ring[0].buf)
    ensures OwnerInv(t)
  {
    forall b ensures InRing(t.ring, b) <==> InRing(s.ring, b) {
      if InRing(s.ring, b) {
        var k :| 0 <= k < RX_RING && s.ring[k].buf == b;
        if t.ring[k].buf != b { assert t.ring[if k == 0 then RX_RING - 1 else k - 1].buf == b; }
      }
    }
  }

  lemma OwnersByTake(s: State, fate: Fate)
    requires OwnerInv(s) && Enabled(s, Take(fate))
    ensures OwnerInv(Taking(s, fate))
  {
    if s.ring[0].len >= ETH_HLEN && !fate.NoBuffer? {
      Swap(s, fate.spare);
      assert InRing(s.ring, s.ring[0].buf);
    }
  }

  lemma OwnersByRebuild(s: State)
    requires OwnerInv(s)
    ensures OwnerInv(Rebuilt(s))
  {
    var t := Rebuilt(s);
    assert forall b :: b in Bufs(s.ring) <==> InRing(s.ring, b);
    forall b: Buf ensures InRing(t.ring, b) <==> s.next <= b < t.next {
      if s.next <= b < t.next { assert t.ring[b - s.next].buf == b; }
    }
  }

  lemma NapiBufs(s: State, e: Step)
    requires Enabled(s, e) && (e.NapiStep? || e.Poll?)
    ensures SameOwners(s, Apply(s, e))
    ensures forall k :: 0 <= k < RX_RING ==> Apply(s, e).ring[k].buf == s.ring[k].buf
  {
  }

  lemma OwnersByNapi(s: State, e: Step)
    requires OwnerInv(s) && Enabled(s, e) && (e.NapiStep? || e.Poll?)
    ensures OwnerInv(Apply(s, e))
  {
    hide Apply;
    NapiBufs(s, e);
    SameBufs(s, Apply(s, e));
  }

  lemma PostBufs(s: State, e: Step)
    requires Enabled(s, e) && e.Post?
    ensures SameOwners(s, Apply(s, e))
    ensures var t := Apply(s, e).ring;
      || (forall k :: 0 <= k < RX_RING ==> t[k].buf == s.ring[k].buf)
      || (forall k :: 0 <= k < RX_RING ==> t[k].buf == if k + 1 < RX_RING then s.ring[k + 1].buf else s.ring[0].buf)
  {
  }

  lemma OwnersByPost(s: State, e: Step)
    requires OwnerInv(s) && Enabled(s, e) && e.Post?
    ensures OwnerInv(Apply(s, e))
  {
    hide Apply;
    PostBufs(s, e);
    SameBufs(s, Apply(s, e));
  }

  lemma CallbackBufs(s: State, e: Step)
    requires Enabled(s, e) && (e.CbStart? || e.CbStep?)
    ensures SameOwners(s, Apply(s, e))
    ensures forall k :: 0 <= k < RX_RING ==> Apply(s, e).ring[k].buf == s.ring[k].buf
  {
  }

  lemma OwnersByCallback(s: State, e: Step)
    requires OwnerInv(s) && Enabled(s, e) && (e.CbStart? || e.CbStep?)
    ensures OwnerInv(Apply(s, e))
  {
    hide Apply;
    CallbackBufs(s, e);
    SameBufs(s, Apply(s, e));
  }

  lemma OwnersByStack(s: State, e: Step)
    requires OwnerInv(s) && Enabled(s, e) && e.StackFrees?
    ensures OwnerInv(Apply(s, e))
  {
  }

  lemma OwnersByReset(s: State, e: Step)
    requires OwnerInv(s) && e.RequestReset?
    ensures OwnerInv(Apply(s, e))
  {
  }

  lemma OwnersKept(s: State, e: Step)
    requires OwnerInv(s) && Enabled(s, e)
    ensures OwnerInv(Apply(s, e))
  {
    if e.Take? { OwnersByTake(s, e.fate); } else if e.Rebuild? { OwnersByRebuild(s); }
    else if e.StackFrees? { OwnersByStack(s, e); }
    else if e.RequestReset? { OwnersByReset(s, e); } else if e.Post? { OwnersByPost(s, e); }
    else if e.NapiStep? || e.Poll? { OwnersByNapi(s, e); } else { OwnersByCallback(s, e); }
  }

  lemma PoolByTake(s: State, fate: Fate)
    requires PoolInv(s) && Enabled(s, Take(fate))
    ensures PoolInv(Taking(s, fate))
  {
  }

  lemma PoolByRebuild(s: State)
    requires OwnerInv(s) && PoolInv(s)
    ensures PoolInv(Rebuilt(s))
  {
    assert forall b :: b in Bufs(s.ring) <==> InRing(s.ring, b);
  }

  lemma PoolByRest(s: State, e: Step)
    requires PoolInv(s) && Enabled(s, e) && !e.Take? && !e.Rebuild?
    ensures PoolInv(Apply(s, e))
  {
  }

  lemma PoolKept(s: State, e: Step)
    requires OwnerInv(s) && PoolInv(s) && Enabled(s, e)
    ensures PoolInv(Apply(s, e))
  {
    if e.Take? { PoolByTake(s, e.fate); } else if e.Rebuild? { PoolByRebuild(s); } else { PoolByRest(s, e); }
  }

  // ------------------------------------------------------ order

  lemma OrderByDrop(s: State, fate: Fate)
    requires PlaceInv(s) && OrderInv(s) && Enabled(s, Take(fate))
    requires s.ring[0].len < ETH_HLEN || !fate.Deliver?
    ensures OrderInv(Taking(s, fate))
  {
  }

  lemma OrderByDelivery(s: State, fate: Fate)
    requires SlotsInv(s) && PlaceInv(s) && OrderInv(s) && Enabled(s, Take(fate))
    requires s.ring[0].len >= ETH_HLEN && fate.Deliver?
    ensures OrderInv(Taking(s, fate))
  {
    assert SlotOk(s, 0) && !Cleared(s);
    assert Taking(s, fate).delivered == s.delivered + [Delivery(s.taken, s.ring[0].buf, s.ring[0].len)];
  }

  lemma OrderByTake(s: State, e: Step)
    requires SlotsInv(s) && PlaceInv(s) && OrderInv(s) && Enabled(s, e) && e.Take?
    ensures OrderInv(Apply(s, e))
  {
    if s.ring[0].len < ETH_HLEN || !e.fate.Deliver? { OrderByDrop(s, e.fate); } else { OrderByDelivery(s, e.fate); }
  }

  lemma OrderByNapi(s: State, e: Step)
    requires SlotsInv(s) && PlaceInv(s) && OrderInv(s) && Enabled(s, e) && (e.NapiStep? || e.Poll?)
    ensures OrderInv(Apply(s, e))
  {
    assert SlotOk(s, 0);
    assert Apply(s, e).delivered == s.delivered && Apply(s, e).received == s.received;
  }

  lemma OrderByRest(s: State, e: Step)
    requires SlotsInv(s) && PlaceInv(s) && OrderInv(s) && Enabled(s, e) && !e.Take? && !e.NapiStep? && !e.Poll?
    ensures OrderInv(Apply(s, e))
  {
    assert SlotOk(s, 0);
  }

  lemma StepKeeps(s: State, e: Step)
    requires Inv(s) && Enabled(s, e)
    ensures Inv(Apply(s, e))
  {
    if e.NapiStep? || e.Take? { SlotsByNapi(s, e); } else if e.Post? { SlotsByPost(s, e); } else { SlotsKept(s, e); }
    if e.NapiStep? || e.Take? || e.Post? { PlaceByNapi(s, e); } else { PlaceKept(s, e); }
    OwnersKept(s, e);
    PoolKept(s, e);
    if e.Take? { OrderByTake(s, e); } else if e.NapiStep? || e.Poll? { OrderByNapi(s, e); } else { OrderByRest(s, e); }
  }

  // ------------------------------------------------------ runs

  predicate Runs(s: State, es: seq<Step>)
    decreases |es|
  {
    es == [] || (Enabled(s, es[0]) && Runs(Apply(s, es[0]), es[1..]))
  }

  function Final(s: State, es: seq<Step>): State
    requires Runs(s, es)
    decreases |es|
  {
    if es == [] then s else Final(Apply(s, es[0]), es[1..])
  }

  ghost predicate Reaches(s: State, t: State) {
    exists es :: Runs(s, es) && Final(s, es) == t
  }

  lemma {:induction false} RunKeeps(s: State, es: seq<Step>)
    requires Inv(s) && Runs(s, es)
    ensures Inv(Final(s, es))
    decreases |es|
  {
    if es != [] {
      StepKeeps(s, es[0]);
      RunKeeps(Apply(s, es[0]), es[1..]);
    }
  }

  /** A ring of new buffers, all posted, with nothing else allocated. */
  lemma FreshInv(s: State)
    requires s.ring == NewRing(0) && s.taken == s.started == 0 && s.n.NIdle? && s.c.CIdle?
    requires s.pool == s.held == s.gone == {} && s.first == 0 && s.next == RX_RING && s.received == [] && s.delivered == []
    ensures Inv(s)
  {
    forall b: Buf ensures InRing(s.ring, b) <==> b < RX_RING {
      if b < RX_RING { assert s.ring[b].buf == b; }
    }
  }

  lemma InitInv()
    ensures Inv(INIT)
  {
    FreshInv(INIT);
  }

  lemma ReachableInv(s: State)
    requires Reaches(INIT, s)
    ensures Inv(s)
  {
    var es :| Runs(INIT, es) && Final(INIT, es) == s;
    InitInv();
    RunKeeps(INIT, es);
  }

  // ------------------------------------------------------ promises

  function One(b: bool): nat { if b then 1 else 0 }

  /** Each fragment ever allocated has exactly one owner: a slot, the stack, the
      pool, or a pool since destroyed; and no two slots share one. */
  lemma OneOwner(s: State, b: Buf)
    requires Reaches(INIT, s) && b < s.next
    ensures One(b in s.pool) + One(b in s.held) + One(b in s.gone) + One(InRing(s.ring, b)) == 1
    ensures forall j, k :: 0 <= j < k < RX_RING ==> s.ring[j].buf != s.ring[k].buf
  {
    ReachableInv(s);
  }

  /** A fragment of a pool since destroyed is never used again: what the ring holds,
      what is free and what is posted is the current pool's, even when the stack gave
      back older fragments after the rebuild. */
  lemma CurrentPoolOnly(s: State, k: nat)
    requires Reaches(INIT, s) && k < RX_RING
    ensures s.ring[k].buf >= s.first && (s.ring[k].desc.Posted? ==> s.ring[k].desc.buf >= s.first)
    ensures forall b :: b in s.pool ==> b >= s.first
    ensures forall b :: b in s.gone ==> b < s.first
  {
    ReachableInv(s);
    assert SlotOk(s, k);
  }

  /** The machine blocks no access the driver would make. */
  lemma NoStepBlocked(s: State, residue: nat, failed: bool)
    requires Inv(s)
    ensures Enabled(s, NapiStep) <==> s.n.NCheck? || s.n.NSubmit? || s.n.NGate? || s.n.NFail?
    ensures Enabled(s, CbStep) <==> !s.c.CIdle?
    ensures Enabled(s, CbStart(residue, failed)) <==> s.c.CIdle? && exists k :: 0 <= k < RX_RING && s.ring[k].desc.Posted?
  {
    if Completed(s) < RX_RING { assert SlotOk(s, Completed(s)); }
    forall k | 0 <= k < RX_RING ensures s.ring[k].desc.Posted? ==> Completed(s) < RX_RING { assert SlotOk(s, k); }
  }

  /** What the DMA may write is never with the stack or free: a posted descriptor
      names its own slot's buffer. */
  lemma PostedIsOwned(s: State, k: nat)
    requires Reaches(INIT, s) && k < RX_RING && s.ring[k].desc.Posted?
    ensures s.ring[k].desc.buf == s.ring[k].buf
    ensures s.ring[k].desc.buf !in s.held && s.ring[k].desc.buf !in s.pool && s.ring[k].desc.buf !in s.gone
  {
    ReachableInv(s);
    assert SlotOk(s, k);
    assert InRing(s.ring, s.ring[k].buf);
  }

  /** With in-order DMA the done slots are one run, at rx_tail or just past the slot
      NAPI has cleared there. */
  lemma DoneRun(s: State)
    requires Reaches(INIT, s)
    ensures forall k :: 0 <= k < RX_RING ==>
      (s.ring[k].done <==> One(Cleared(s)) <= k < Completed(s) - One(!s.c.CIdle?))
  {
    ReachableInv(s);
    assert SlotOk(s, 0);
    var lo, hi := One(Cleared(s)), Completed(s) - One(!s.c.CIdle?);
    forall k | 0 <= k < RX_RING ensures s.ring[k].done <==> lo <= k < hi { assert SlotOk(s, k); }
  }

  /** Delivered frames are an ordered subsequence of the received ones, each with
      the length the DMA reported for it. */
  lemma DeliveredInOrder(s: State)
    requires Reaches(INIT, s)
    ensures forall i, j :: 0 <= i < j < |s.delivered| ==> s.delivered[i].frame < s.delivered[j].frame
    ensures forall i :: 0 <= i < |s.delivered| ==>
      s.delivered[i].frame < |s.received| && s.delivered[i].len == s.received[s.delivered[i].frame]
  {
    ReachableInv(s);
  }

  /** A slot done with an error, and after a poll a slot that is neither posted nor
      done, are never seen without reset_pending. */
  lemma FailuresBehindGate(s: State)
    requires Reaches(INIT, s)
    ensures forall k :: 0 <= k < RX_RING && s.ring[k].done && s.ring[k].failed ==> s.gate
    ensures s.n.NIdle? && s.c.CIdle? ==>
      forall k :: 0 <= k < RX_RING && s.ring[k].desc.NoDesc? && !s.ring[k].done ==> s.gate
  {
    ReachableInv(s);
    forall k | 0 <= k < RX_RING
      ensures s.ring[k].done && s.ring[k].failed ==> s.gate
      ensures s.n.NIdle? && s.c.CIdle? && s.ring[k].desc.NoDesc? && !s.ring[k].done ==> s.gate
    {
      assert SlotOk(s, k);
    }
  }

  predicate Shut(s: State) { s.gate && !s.n.NPost? }

  predicate NoRebuild(es: seq<Step>) { forall e :: e in es ==> !e.Rebuild? }

  /** From a moment with the gate up and NAPI between polls until the rebuild, no
      slot is posted again: taken, the count of reposts, stands still. */
  lemma {:induction false} GateShutsReposts(s: State, es: seq<Step>)
    requires Shut(s) && Runs(s, es) && NoRebuild(es)
    ensures Shut(Final(s, es)) && Final(s, es).taken == s.taken
    decreases |es|
  {
    if es != [] {
      assert es[0] in es;
      assert forall e :: e in es[1..] ==> e in es;
      GateShutsReposts(Apply(s, es[0]), es[1..]);
    }
  }
}
