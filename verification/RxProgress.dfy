/** What becomes of received frames: their lengths from the DMA's residues, and which of
    them the stack gets. */
module RxProgress {
  import opened RxProtocol
  import opened RxInvariant
  import opened RxTheorems

  // ------------------------------------------------------ lengths

  /** The residues the DMA has reported since up, one step on, ... */
  function Reported(before: seq<nat>, e: Step): seq<nat> {
    if e.CbStart? then before + [e.residue] else if e.Rebuild? then [] else before
  }

  /** ... and after a run. */
  function Residues(before: seq<nat>, es: seq<Step>): seq<nat>
    decreases |es|
  {
    if es == [] then before else Residues(Reported(before, es[0]), es[1..])
  }

  /** The length is the 1536-byte buffer less the residue, which does not count past it. */
  ghost predicate Lengths(received: seq<nat>, residues: seq<nat>) {
    && |received| == |residues|
    && forall k :: 0 <= k < |received| ==>
        if residues[k] <= 1536 then received[k] + residues[k] == 1536 else received[k] == 0
  }

  lemma LengthsStep(s: State, e: Step, before: seq<nat>)
    requires Lengths(s.received, before) && Enabled(s, e)
    ensures Lengths(Apply(s, e).received, Reported(before, e))
  {
  }

  lemma {:induction false} ReceivedExact(s: State, es: seq<Step>, before: seq<nat>)
    requires Lengths(s.received, before) && Runs(s, es)
    ensures Lengths(Final(s, es).received, Residues(before, es))
    decreases |es|
  {
    hide Apply, Lengths;
    if es != [] {
      LengthsStep(s, es[0], before);
      ReceivedExact(Apply(s, es[0]), es[1..], Reported(before, es[0]));
    }
  }

  /** Only frames with a whole Ethernet header are delivered. */
  ghost predicate AllWhole(d: seq<Delivery>) { forall i :: 0 <= i < |d| ==> d[i].len >= 14 }

  lemma WholeByTake(s: State, fate: Fate)
    requires AllWhole(s.delivered) && Enabled(s, Take(fate))
    ensures AllWhole(Taking(s, fate).delivered)
  {
  }

  lemma WholeStep(s: State, e: Step)
    requires AllWhole(s.delivered) && Enabled(s, e)
    ensures AllWhole(Apply(s, e).delivered)
  {
    if e.Take? { WholeByTake(s, e.fate); }
  }

  lemma {:induction false} WholeOverRun(s: State, es: seq<Step>)
    requires AllWhole(s.delivered) && Runs(s, es)
    ensures AllWhole(Final(s, es).delivered)
    decreases |es|
  {
    hide Apply, AllWhole;
    if es != [] {
      WholeStep(s, es[0]);
      WholeOverRun(Apply(s, es[0]), es[1..]);
    }
  }

  /** Over any run, with the residues the DMA reported in it: every frame received has the
      length its residue says, and so has every frame delivered, none shorter than an
      Ethernet header. */
  lemma DeliveredLengths(s: State, es: seq<Step>)
    requires Inv(s) && s.received == [] && s.delivered == [] && Runs(s, es)
    ensures var t, residues := Final(s, es), Residues([], es);
      && Lengths(t.received, residues)
      && forall i :: 0 <= i < |t.delivered| ==>
          && t.delivered[i].frame < |residues| && t.delivered[i].len >= 14
          && t.delivered[i].len + residues[t.delivered[i].frame] == 1536
  {
    hide Apply;
    ReceivedExact(s, es, []);
    WholeOverRun(s, es);
    RunKeeps(s, es);
  }

  // ------------------------------------------------------ fates

  /** The oldest frame taken is delivered exactly when it is whole, there is a buffer to
      take its place and an skb to carry it; a short one, or one there is no buffer for,
      leaves every buffer where it was. */
  lemma TakeDecides(s: State, fate: Fate)
    requires Inv(s) && Enabled(s, Take(fate))
    ensures s.taken < |s.received|
    ensures var t, len, buf := Taking(s, fate), s.received[s.taken], s.ring[0].buf;
      if len >= 14 && fate.Deliver? then
        && t.delivered == s.delivered + [Delivery(s.taken, buf, len)]
        && t.held == s.held + {buf} && t.ring[0].buf == fate.spare
      else if len >= 14 && fate.NoSkb? then
        t.delivered == s.delivered && buf in t.pool && t.ring[0].buf == fate.spare
      else
        t.delivered == s.delivered && t.ring == s.ring && t.pool == s.pool && t.held == s.held
  {
    assert SlotOk(s, 0);
  }

  /** One turn of the poll's loop, nothing failing: the frame at the tail is taken, its
      slot posted again behind all others, and the budget is down by one. */
  lemma PollTurn(s: State, fate: Fate)
    requires s.n.NCheck? && s.budget > 0 && s.ring[0].done && !s.ring[0].failed && !s.gate
    requires fate.NoBuffer? || Available(s, fate.spare)
    ensures Runs(s, [NapiStep, Take(fate), NapiStep, NapiStep, Post(true)])
    ensures var t := Final(s, [NapiStep, Take(fate), NapiStep, NapiStep, Post(true)]);
      && t.n.NCheck? && t.budget == s.budget - 1 && t.taken == s.taken + 1 && !t.gate
      && t.delivered == Taking(s.(n := NTake), fate).delivered
      && (forall k :: 0 <= k < RX_RING - 1 ==> t.ring[k] == s.ring[k + 1])
      && !t.ring[RX_RING - 1].done && t.ring[RX_RING - 1].desc == Posted(t.ring[RX_RING - 1].buf)
  {
    var s1 := s.(n := NTake);
    var s2 := Taking(s1, fate);
    TakeKeeps(s1, fate);
    var s3 := Submitting(s2);
    var s4 := Looking(s3);
    var s5 := Posting(s4, true);
    assert Apply(s, NapiStep) == s1;
    assert Apply(s2, NapiStep) == s3 && Apply(s3, NapiStep) == s4;
    hide Taking, Apply;
    TurnRuns(s, s1, s2, s3, s4, s5, fate);
  }

  lemma TakeKeeps(s: State, fate: Fate)
    requires Enabled(s, Take(fate)) && s.budget > 0
    ensures var t := Taking(s, fate);
      && t.n.NSubmit? && t.budget == s.budget - 1 && t.taken == s.taken && t.gate == s.gate
      && forall k :: 0 < k < RX_RING ==> t.ring[k] == s.ring[k]
  {
  }

  lemma TurnRuns(s: State, s1: State, s2: State, s3: State, s4: State, s5: State, fate: Fate)
    requires Enabled(s, NapiStep) && s1 == Apply(s, NapiStep)
    requires Enabled(s1, Take(fate)) && s2 == Apply(s1, Take(fate))
    requires Enabled(s2, NapiStep) && s3 == Apply(s2, NapiStep)
    requires Enabled(s3, NapiStep) && s4 == Apply(s3, NapiStep)
    requires Enabled(s4, Post(true)) && s5 == Apply(s4, Post(true))
    ensures Runs(s, [NapiStep, Take(fate), NapiStep, NapiStep, Post(true)])
    ensures Final(s, [NapiStep, Take(fate), NapiStep, NapiStep, Post(true)]) == s5
  {
    hide Apply, Enabled;
    assert Runs(s5, []) && Final(s5, []) == s5;
    var e4 := [Post(true)];
    assert e4[1..] == [] && Runs(s4, e4) && Final(s4, e4) == s5;
    var e3 := [NapiStep, Post(true)];
    assert e3[1..] == e4 && Runs(s3, e3) && Final(s3, e3) == s5;
    var e2 := [NapiStep, NapiStep, Post(true)];
    assert e2[1..] == e3 && Runs(s2, e2) && Final(s2, e2) == s5;
    var e1 := [Take(fate), NapiStep, NapiStep, Post(true)];
    assert e1[1..] == e2 && Runs(s1, e1) && Final(s1, e1) == s5;
    var e0 := [NapiStep, Take(fate), NapiStep, NapiStep, Post(true)];
    assert e0[1..] == e1;
  }

  /** A poll stops at a frame that failed, which nobody gets, and at a slot that cannot be
      posted again, with the gate up for a rebuild; the tail stays on either. */
  lemma PollStops(s: State)
    requires s.n.NCheck? && s.budget > 0 && s.ring[0].done && s.ring[0].failed
    ensures Apply(s, NapiStep) == s.(n := NIdle, ring := s.ring[0 := s.ring[0].(done := false)])
  {
  }

  lemma RefusedPost(s: State)
    requires s.n.NPost? || (s.n.NGate? && s.gate)
    ensures var e := if s.n.NPost? then Post(false) else NapiStep;
      && Enabled(s, e) && Enabled(Apply(s, e), NapiStep)
      && Apply(Apply(s, e), NapiStep) == s.(n := NIdle, gate := true)
  {
  }

  /** A completion marks the slot its descriptor was of, with the result and length the
      DMA gave; a failed one raises the gate first. */
  lemma CompletionMarks(s: State, residue: nat, failed: bool)
    requires Enabled(s, CbStart(residue, failed)) && s.taken <= s.started
    ensures var k, s1 := s.started - s.taken, Apply(s, CbStart(residue, failed));
      && Enabled(s1, CbStep) && (failed ==> Enabled(Apply(s1, CbStep), CbStep))
      && var t := if failed then Apply(Apply(s1, CbStep), CbStep) else Apply(s1, CbStep);
         && t.c.CIdle? && t.gate == (s.gate || failed)
         && t.ring == s.ring[k := Slot(s.ring[k].buf, if residue <= 1536 then 1536 - residue else 0,
                                       failed, true, NoDesc, s.started)]
  {
  }

  /** A fragment of the current pool the stack gives back can be posted again; one of an
      earlier pool never comes back. */
  lemma FreedReturns(s: State, b: Buf)
    requires Inv(s) && Enabled(s, StackFrees(b))
    ensures var t := Apply(s, StackFrees(b));
      && b !in t.held
      && (b >= s.first ==> Available(t, b))
      && (b < s.first ==> !Available(t, b) && b in t.gone)
  {
  }

  // ------------------------------------------------------ the budget

  function Takes(es: seq<Step>): nat {
    if es == [] then 0 else (if es[0].Take? then 1 else 0) + Takes(es[1..])
  }

  predicate NoPoll(es: seq<Step>) { forall e :: e in es ==> !e.Poll? }

  predicate Budgeted(s: State) { s.n.NTake? ==> s.budget > 0 }

  lemma BudgetStep(s: State, e: Step)
    requires Budgeted(s) && Enabled(s, e) && !e.Poll?
    ensures var t := Apply(s, e);
      Budgeted(t) && t.budget == if e.Take? then s.budget - 1 else s.budget
  {
  }

  /** Until it is polled again, NAPI takes no more frames than its budget. */
  lemma {:induction false} WithinBudget(s: State, es: seq<Step>)
    requires Budgeted(s) && Runs(s, es) && NoPoll(es)
    ensures Takes(es) <= s.budget
    decreases |es|
  {
    hide Apply;
    if es != [] {
      assert es[0] in es && forall e :: e in es[1..] ==> e in es;
      BudgetStep(s, es[0]);
      WithinBudget(Apply(s, es[0]), es[1..]);
    }
  }

  // ------------------------------------------------------ after a rebuild

  /** Whatever failed before, a rebuild leaves the gate down and every slot posted, so the
      next 128 frames have somewhere to go. */
  lemma RebuildOpens(s: State, k: nat)
    requires Inv(s) && Enabled(s, Rebuild) && k < 128
    ensures var t := Apply(s, Rebuild);
      && !t.gate && t.taken == t.started == 0
      && t.ring[k].desc == Posted(t.ring[k].buf) && !t.ring[k].done
      && t.ring[k].buf !in s.held && !InRing(s.ring, t.ring[k].buf)
      && Enabled(t, CbStart(0, false))
  {
    var t := Apply(s, Rebuild);
    assert t.ring[k].buf == s.next + k;
    assert t.ring[0].desc.Posted?;
  }
}
