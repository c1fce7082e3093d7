/** The driver's watchdog: when it asks for the datapath to be rebuilt, judged against
    the whole history of its ticks. */
module Watchdog {

  const STALL_TICKS: nat := 3

  /** What one tick reads. */
  datatype Tick = Tick(progress: nat, tail: nat, head: nat, drop: nat, carrier: bool)

  datatype Outcome = Fine | RxStalled | TxStalled

  /** What emz_datapath_up() notes. */
  datatype Base = Base(drop: nat, progress: nat)

  // ------------------------------------------------------ over a history

  function LastDrop(b: Base, h: seq<Tick>): nat { if h == [] then b.drop else h[|h| - 1].drop }

  function LastProgress(b: Base, h: seq<Tick>): nat { if h == [] then b.progress else h[|h| - 1].progress }

  function LastTail(h: seq<Tick>): nat { if h == [] then 0 else h[|h| - 1].tail }

  /** The MAC dropped frames since the last tick while NAPI took none. */
  predicate RxStood(b: Base, h: seq<Tick>)
    requires h != []
  {
    var t, before := h[|h| - 1], h[..|h| - 1];
    t.drop != LastDrop(b, before) && t.progress == LastProgress(b, before)
  }

  /** Frames in flight, the carrier up, and the tail where the last tick saw it. */
  predicate TxStood(h: seq<Tick>)
    requires h != []
  {
    var t := h[|h| - 1];
    t.head != t.tail && t.carrier && t.tail == LastTail(h[..|h| - 1])
  }

  /** The last n intervals all stood still. */
  predicate TxStoodFor(h: seq<Tick>, n: nat)
    decreases n
  {
    n == 0 || (h != [] && TxStood(h) && TxStoodFor(h[..|h| - 1], n - 1))
  }

  /** The watchdog's answer to the last tick of a history. */
  function Answer(b: Base, h: seq<Tick>): Outcome
    requires h != []
  {
    if RxStood(b, h) then RxStalled else if TxStoodFor(h, STALL_TICKS) then TxStalled else Fine
  }

  /** No reset asked for so far. */
  predicate Quiet(b: Base, h: seq<Tick>)
    decreases |h|
  {
    h == [] || (Answer(b, h).Fine? && Quiet(b, h[..|h| - 1]))
  }

  /** How many intervals in a row have stood still. */
  function Streak(h: seq<Tick>): nat
    decreases |h|
  {
    if h == [] || !TxStood(h) then 0 else Streak(h[..|h| - 1]) + 1
  }

  lemma {:induction false} StreakExact(h: seq<Tick>, n: nat)
    ensures Streak(h) >= n <==> TxStoodFor(h, n)
    decreases n
  {
    if n > 0 && h != [] { StreakExact(h[..|h| - 1], n - 1); }
  }

  // ------------------------------------------------------ the driver's fields

  class State {
    var rxDrop: nat
    var rxProgress: nat
    var txTail: nat
    var txStuck: nat
    ghost var base: Base
    ghost var history: seq<Tick>    // since the datapath came up, while ticks are scheduled

    ghost predicate Ok()
      reads this
    {
      && Quiet(base, history)
      && rxDrop == LastDrop(base, history) && rxProgress == LastProgress(base, history)
      && txTail == LastTail(history) && txStuck == Streak(history)
    }

    /** The end of emz_datapath_up(). */
    constructor (drop: nat, progress: nat)
      ensures Ok() && history == [] && base == Base(drop, progress)
    {
      rxDrop, rxProgress, txTail, txStuck := drop, progress, 0, 0;
      base := Base(drop, progress);
      history := [];
    }

    /** emz_watchdog(): after a reset request no further tick is scheduled. */
    method OnTick(t: Tick) returns (o: Outcome)
      requires Ok()
      modifies this
      ensures base == old(base) && history == old(history) + [t]
      ensures o == Answer(base, history)
      ensures o.Fine? ==> Ok()
    {
      history := history + [t];
      assert history[..|history| - 1] == old(history);
      StreakExact(history, STALL_TICKS);
      if t.drop != rxDrop && t.progress == rxProgress { return RxStalled; }
      rxDrop := t.drop;
      rxProgress := t.progress;
      var busy := t.head != t.tail;
      if busy && t.tail == txTail && t.carrier {
        txStuck := txStuck + 1;
        if txStuck >= STALL_TICKS { return TxStalled; }
      } else {
        txStuck := 0;
      }
      txTail := t.tail;
      return Fine;
    }
  }

  // ------------------------------------------------------ what that amounts to

  /** Frames in flight that no tick sees move, with the carrier up. */
  predicate Frozen(h: seq<Tick>, more: seq<Tick>) {
    forall k :: 0 <= k < |more| ==>
      more[k].head != more[k].tail && more[k].carrier && more[k].tail == LastTail(h)
  }

  lemma {:induction false} FrozenStands(h: seq<Tick>, more: seq<Tick>)
    requires Frozen(h, more)
    ensures TxStoodFor(h + more, |more|)
    ensures LastTail(h + more) == LastTail(h)
    decreases |more|
  {
    if more == [] {
      assert h + more == h;
    } else {
      var m := more[..|more| - 1];
      FrozenStands(h, m);
      assert (h + more)[..|h + more| - 1] == h + m;
    }
  }

  /** Whatever came before, a TX channel frozen over three ticks gets its reset by the
      third. */
  lemma FrozenIsReset(b: Base, h: seq<Tick>, more: seq<Tick>)
    requires |more| == 3 && Frozen(h, more)
    ensures !Answer(b, h + more).Fine?
    ensures !Quiet(b, h + more)
  {
    FrozenStands(h, more);
  }

  /** And on the TX side it is asked for only after the tail was seen in the same place,
      frames in flight and carrier up, at three ticks in a row, all showing the value of
      the tick before them (or of start-up). */
  lemma ResetOnlyFrozen(b: Base, h: seq<Tick>)
    requires h != [] && Answer(b, h).TxStalled?
    ensures |h| >= 3
    ensures Frozen(h[..|h| - 3], h[|h| - 3..])
    ensures !RxStood(b, h)
  {
    var n := |h|;
    var h1, h2 := h[..n - 1], h[..n - 1][..|h[..n - 1]| - 1];
    assert TxStood(h) && TxStood(h1) && TxStood(h2);
    assert h1 == h[..n - 1] && h2 == h[..n - 2];
    assert h2[..n - 3] == h[..n - 3];
    var more := h[n - 3..];
    assert more[2] == h[n - 1] && more[1] == h1[n - 2] && more[0] == h2[n - 3];
  }

  /** A tick asks for an RX reset exactly when the MAC's drops moved and NAPI's progress
      did not: since the tick before, or since the datapath came up. */
  lemma RxResetExactly(b: Base, h: seq<Tick>, t: Tick, u: Tick)
    ensures Answer(b, h + [t, u]).RxStalled? <==> u.drop != t.drop && u.progress == t.progress
    ensures Answer(b, [t]).RxStalled? <==> t.drop != b.drop && t.progress == b.progress
  {
    var all := h + [t, u];
    assert all[..|all| - 1] == h + [t];
  }

  /** NAPI's counter moves wherever drops do. */
  predicate RxMoving(b: Base, h: seq<Tick>) {
    forall k :: 0 <= k < |h| ==> h[k].drop == LastDrop(b, h[..k]) || h[k].progress != LastProgress(b, h[..k])
  }

  /** Over no three ticks in a row is TX frozen. */
  predicate TxMoving(h: seq<Tick>) {
    forall k :: 0 <= k && k + 3 <= |h| ==> !Frozen(h[..k], h[k..k + 3])
  }

  /** No reset is ever asked for exactly while the datapath moves. */
  lemma {:induction false} QuietExactly(b: Base, h: seq<Tick>)
    ensures Quiet(b, h) <==> RxMoving(b, h) && TxMoving(h)
    decreases |h|
  {
    hide Frozen, Answer, RxMoving, TxMoving;
    RxMovingStep(b, h);
    TxMovingStep(h);
    if h != [] {
      QuietExactly(b, h[..|h| - 1]);
      FineExactly(b, h);
    }
  }

  lemma FineExactly(b: Base, h: seq<Tick>)
    requires h != []
    ensures Answer(b, h).Fine? <==>
      !RxStood(b, h) && (|h| >= 3 ==> !Frozen(h[..|h| - 3], h[|h| - 3..]))
  {
    if |h| >= 3 && Frozen(h[..|h| - 3], h[|h| - 3..]) {
      FrozenIsReset(b, h[..|h| - 3], h[|h| - 3..]);
      assert h[..|h| - 3] + h[|h| - 3..] == h;
    } else if Answer(b, h).TxStalled? {
      ResetOnlyFrozen(b, h);
    }
  }

  lemma RxMovingStep(b: Base, h: seq<Tick>)
    ensures if h == [] then RxMoving(b, h) else RxMoving(b, h) <==> RxMoving(b, h[..|h| - 1]) && !RxStood(b, h)
  {
    if h != [] {
      var u := h[..|h| - 1];
      assert forall k :: 0 <= k < |u| ==> u[..k] == h[..k];
    }
  }

  lemma TxMovingStep(h: seq<Tick>)
    ensures if h == [] then TxMoving(h)
      else TxMoving(h) <==> TxMoving(h[..|h| - 1]) && (|h| >= 3 ==> !Frozen(h[..|h| - 3], h[|h| - 3..]))
  {
    hide Frozen;
    var n := |h|;
    if n >= 3 {
      var u := h[..n - 1];
      assert h[n - 3..] == h[n - 3..n - 3 + 3];
      forall k | 0 <= k && k + 3 <= |u| ensures Frozen(u[..k], u[k..k + 3]) <==> Frozen(h[..k], h[k..k + 3]) {
        assert u[..k] == h[..k] && u[k..k + 3] == h[k..k + 3];
      }
    }
  }
}
