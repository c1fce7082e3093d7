/** What every step of the receive machine keeps: who owns each buffer, and where
    the completed slots lie. */
module RxInvariant {
  import opened RxProtocol

  /** The slot at rx_tail is NAPI's, its done already cleared: a frame being
      reposted, or one whose repost failed or whose completion had failed. */
  predicate Cleared(s: State) { Completed(s) > 0 && !s.ring[0].done && !(!s.c.CIdle? && s.c.at == s.taken) }

  predicate Working(n: Napi) { n.NTake? || n.NSubmit? || n.NGate? || n.NPost? || n.NFail? }

  /** From rx_tail on: completed slots, then the one in its callback, then slots
      the provider holds, each with its own buffer. */
  predicate SlotOk(s: State, k: nat)
    requires k < RX_RING
  {
    var v := s.ring[k];
    && (k < Completed(s) ==>
        && v.desc.NoDesc? && v.frame == s.taken + k < |s.received| && v.len == s.received[v.frame]
        && (v.done ==> !(!s.c.CIdle? && s.c.at == s.taken + k) && (v.failed ==> s.gate)))
    && (0 < k < Completed(s) ==> (v.done <==> !(!s.c.CIdle? && s.c.at == s.taken + k)))
    && (k >= Completed(s) ==> !v.done && v.desc == Posted(v.buf))
  }

  ghost predicate SlotsInv(s: State) {
    && 0 <= Completed(s) <= RX_RING
    && |s.received| == s.started
    && (forall k :: 0 <= k < RX_RING ==> SlotOk(s, k))
  }

  ghost predicate PlaceInv(s: State) {
    && (!s.c.CIdle? ==>
        && 0 < Completed(s) <= RX_RING && s.c.at == s.started - 1
        && (s.c.CDone? && s.ring[Completed(s) - 1].failed ==> s.gate)
        && (s.c.CGate? ==> s.ring[Completed(s) - 1].failed))
    && (Working(s.n) ==> Completed(s) > 0 && !s.ring[0].failed && !(!s.c.CIdle? && s.c.at == s.taken))
    && (s.n.NTake? || s.n.NSubmit? ==> s.ring[0].done)
    && (s.n.NGate? || s.n.NPost? || s.n.NFail? ==> !s.ring[0].done)
    && (Cleared(s) && !Working(s.n) ==> s.gate)
  }

  predicate InRing(r: seq<Slot>, b: Buf) { exists k :: 0 <= k < |r| && r[k].buf == b }

  /** Every buffer ever taken from a pool has one owner. */
  ghost predicate OwnerInv(s: State) {
    && (forall j, k :: 0 <= j < k < RX_RING ==> s.ring[j].buf != s.ring[k].buf)
    && (forall b :: b in s.pool ==> b !in s.held && b !in s.gone && !InRing(s.ring, b))
    && (forall b :: b in s.held ==> b !in s.gone && !InRing(s.ring, b))
    && (forall b :: b in s.gone ==> !InRing(s.ring, b))
    && (forall b: Buf :: b < s.next <==> b in s.pool || b in s.held || b in s.gone || InRing(s.ring, b))
  }

  /** The ring and the free list hold fragments of the current pool alone. */
  ghost predicate PoolInv(s: State) {
    && s.first <= s.next
    && (forall k :: 0 <= k < RX_RING ==> s.ring[k].buf >= s.first)
    && (forall b :: b in s.pool ==> b >= s.first)
    && (forall b :: b in s.gone ==> b < s.first)
  }

  /** NAPI has finished with the frame at rx_tail, or it is lost. */
  predicate Spent(s: State) { s.n.NSubmit? || s.n.NGate? || s.n.NPost? || s.n.NFail? || Cleared(s) }

  /** What the stack got: frames as received, in the order received. */
  ghost predicate OrderInv(s: State) {
    && (forall i :: 0 <= i < |s.delivered| ==>
        s.delivered[i].frame < |s.received| && s.delivered[i].len == s.received[s.delivered[i].frame])
    && (forall i, j :: 0 <= i < j < |s.delivered| ==> s.delivered[i].frame < s.delivered[j].frame)
    && (s.delivered != [] ==> s.delivered[|s.delivered| - 1].frame < s.taken + (if Spent(s) then 1 else 0))
  }

  ghost predicate Inv(s: State) { SlotsInv(s) && PlaceInv(s) && OwnerInv(s) && PoolInv(s) && OrderInv(s) }
}
