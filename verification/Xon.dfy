/** The loopback self-test's PAUSE XON verdict (Annex 31B of IEEE 802.3): what host
    timestamps around the requests say about the stall of the transmitter. */
module Xon {

  /** Host time before and after one write. */
  datatype Edge = Edge(t0: real, t1: real)

  /** One attempt: the writes of the 0xFFFF pauses, then that of Q = 0. */
  datatype Attempt = Attempt(edges: seq<Edge>, x: Edge)

  predicate Clocked(w: Attempt) {
    && w.edges != []
    && (forall k :: 0 <= k < |w.edges| ==> w.edges[k].t0 <= w.edges[k].t1 <= After(w, k).t0)
    && w.x.t0 <= w.x.t1
  }

  /** The write that follows the k-th. */
  function After(w: Attempt, k: nat): Edge
    requires k < |w.edges|
  {
    if k + 1 < |w.edges| then w.edges[k + 1] else w.x
  }

  /** By how much the next pause takes effect before the k-th can run out, at worst. */
  function Margin(w: Attempt, full: real, frame: real, k: nat): real
    requires k < |w.edges|
  {
    w.edges[k].t0 + full - (After(w, k).t1 + 2.0 * frame)
  }

  method Slack(w: Attempt, full: real, frame: real) returns (slack: real)
    requires w.edges != []
    ensures forall k :: 0 <= k < |w.edges| ==> slack <= Margin(w, full, frame, k)
    ensures exists k :: 0 <= k < |w.edges| && slack == Margin(w, full, frame, k)
  {
    slack := Margin(w, full, frame, 0);
    for i := 1 to |w.edges|
      invariant forall k :: 0 <= k < i ==> slack <= Margin(w, full, frame, k)
      invariant exists k :: 0 <= k < i && slack == Margin(w, full, frame, k)
    {
      var m := Margin(w, full, frame, i);
      if m < slack { slack := m; }
    }
  }

  // ------------------------------------------------------ what the MAC does

  /** When each pause and then Q = 0 take effect: in order, each between its write's start
      and two frames after its end. */
  predicate Admissible(w: Attempt, frame: real, es: seq<real>, ex: real) {
    && |es| == |w.edges|
    && (forall k :: 0 <= k < |es| ==> w.edges[k].t0 <= es[k] <= w.edges[k].t1 + 2.0 * frame)
    && w.x.t0 <= ex <= w.x.t1 + 2.0 * frame
    && (forall j, k :: 0 <= j < k < |es| ==> es[j] <= es[k])
    && (forall k :: 0 <= k < |es| ==> es[k] <= ex)
  }

  /** Pause k is the one in force at time t. */
  predicate Governs(es: seq<real>, k: nat, t: real) {
    k < |es| && es[k] <= t && (k + 1 < |es| ==> t < es[k + 1])
  }

  /** Each pause reloads the timer with full. */
  ghost predicate Paused(es: seq<real>, full: real, t: real) {
    exists k: nat :: Governs(es, k, t) && t < es[k] + full
  }

  lemma {:induction false} SomeGoverns(es: seq<real>, t: real, n: nat) returns (k: nat)
    requires n < |es| && es[n] <= t
    ensures Governs(es, k, t) && n <= k
    decreases |es| - n
  {
    if n + 1 < |es| && es[n + 1] <= t { k := SomeGoverns(es, t, n + 1); } else { k := n; }
  }

  /** The margins never negative: paused without a break from the first pause until Q = 0,
      and, were Q = 0 ignored, until the last pause ran out. */
  lemma NoBreak(w: Attempt, full: real, frame: real, es: seq<real>, ex: real, t: real)
    requires Clocked(w) && Admissible(w, frame, es, ex)
    requires forall k :: 0 <= k < |w.edges| ==> Margin(w, full, frame, k) >= 0.0
    requires es[0] <= t
    ensures t < ex ==> Paused(es, full, t)
    ensures t < es[|es| - 1] + full <==> Paused(es, full, t)
  {
    var k := SomeGoverns(es, t, 0);
    var last := |es| - 1;
    assert Margin(w, full, frame, k) >= 0.0 && Margin(w, full, frame, last) >= 0.0;
    assert es[k] <= es[last] || k == last;
    if k < last { assert t < es[k + 1] <= w.edges[k + 1].t1 + 2.0 * frame; }
    if t < ex || t < es[last] + full { assert t < es[k] + full; }
    forall j: nat | Governs(es, j, t) && t < es[j] + full
      ensures t < es[last] + full
    {
      assert es[j] <= es[last] || j == last;
    }
  }

  /** The worst case at k: pauses up to it as early as they can be, the rest as late. */
  function Worst(w: Attempt, frame: real, k: nat): (es: seq<real>)
    ensures |es| == |w.edges|
  {
    seq(|w.edges|, j requires 0 <= j < |w.edges| =>
      if j <= k then w.edges[j].t0 else w.edges[j].t1 + 2.0 * frame)
  }

  lemma WorstAdmissible(w: Attempt, frame: real, k: nat)
    requires Clocked(w) && frame >= 0.0
    ensures Admissible(w, frame, Worst(w, frame, k), w.x.t1 + 2.0 * frame)
  {
    EdgesInOrder(w);
    var es := Worst(w, frame, k);
    forall i, j | 0 <= i < j < |es| ensures es[i] <= es[j] {
      assert w.edges[i].t0 <= w.edges[i].t1 <= w.edges[j].t0 <= w.edges[j].t1;
    }
  }

  /** A negative margin, and the pauses may really run out in between. */
  lemma BreakPossible(w: Attempt, full: real, frame: real, k: nat)
    returns (es: seq<real>, ex: real, t: real)
    requires Clocked(w) && frame >= 0.0 && full >= 0.0 && k < |w.edges| && Margin(w, full, frame, k) < 0.0
    ensures Admissible(w, frame, es, ex) && es[0] <= t < ex && !Paused(es, full, t)
  {
    WorstAdmissible(w, frame, k);
    es, ex := Worst(w, frame, k), w.x.t1 + 2.0 * frame;
    t := es[k] + full;
    assert es[0] <= es[k] || k == 0;
    assert k + 1 < |es| ==> t < es[k + 1];
    if k + 1 < |es| { assert es[k + 1] <= ex; }
    RunsOut(es, full, k);
  }

  lemma RunsOut(es: seq<real>, full: real, k: nat)
    requires k < |es| && full >= 0.0
    requires forall i, j :: 0 <= i < j < |es| ==> es[i] <= es[j]
    requires k + 1 < |es| ==> es[k] + full < es[k + 1]
    ensures !Paused(es, full, es[k] + full)
  {
    var t := es[k] + full;
    forall j: nat | Governs(es, j, t) ensures !(t < es[j] + full) {
      if j < k { assert es[j + 1] <= es[k] || j + 1 == k; }
    }
  }

  lemma {:induction false} EdgesInOrder(w: Attempt)
    requires Clocked(w)
    ensures forall j, k :: 0 <= j < k < |w.edges| ==> w.edges[j].t1 <= w.edges[k].t0
    ensures forall k :: 0 <= k < |w.edges| ==> w.edges[k].t1 <= w.x.t0
  {
    forall j, k | 0 <= j < k < |w.edges| ensures w.edges[j].t1 <= w.edges[k].t0 { Ordered(w, j, k); }
    forall k | 0 <= k < |w.edges| ensures w.edges[k].t1 <= w.x.t0 {
      var last := |w.edges| - 1;
      assert w.edges[last].t1 <= After(w, last).t0;
      if k < last { Ordered(w, k, last); }
    }
  }

  lemma {:induction false} Ordered(w: Attempt, j: nat, k: nat)
    requires Clocked(w) && j < k < |w.edges|
    ensures w.edges[j].t1 <= w.edges[k].t0
    decreases k
  {
    assert w.edges[k - 1].t1 <= After(w, k - 1).t0;
    if j < k - 1 { Ordered(w, j, k - 1); }
  }

  // ------------------------------------------------------ the verdict

  const MS: real := 0.001

  function Lo(w: Attempt, frame: real): real
    requires w.edges != []
  {
    w.x.t0 - w.edges[0].t1 - 2.0 * frame
  }

  function Hi(w: Attempt, frame: real): real
    requires w.edges != []
  {
    w.x.t1 - w.edges[0].t0 + 2.0 * frame + MS
  }

  /** The shortest stall had Q = 0 been ignored. */
  function Ignored(w: Attempt, full: real, frame: real): real
    requires w.edges != []
  {
    w.edges[|w.edges| - 1].t0 + full - w.edges[0].t1 - 2.0 * frame
  }

  datatype Told = NotCounted | Counted(pass: bool)

  datatype Report = Report(valid: bool, stopped: bool, resumed: bool, told: Told)

  function Verdict(w: Attempt, full: real, frame: real, slack: real, gap: real): Report
    requires w.edges != []
  {
    var lo, hi := Lo(w, frame), Hi(w, frame);
    var valid := slack > 0.0;
    Report(valid, valid && gap >= lo, gap <= hi,
           if Ignored(w, full, frame) > hi then Counted(valid && lo <= gap <= hi) else NotCounted)
  }

  predicate Passes(r: Report) { r.valid && r.stopped && r.resumed && r.told != Counted(false) }

  predicate SlackOf(w: Attempt, full: real, frame: real, slack: real) {
    && (forall k :: 0 <= k < |w.edges| ==> slack <= Margin(w, full, frame, k))
    && (exists k :: 0 <= k < |w.edges| && slack == Margin(w, full, frame, k))
  }

  /** The stall from the first moment of pause to the last: an interval on which the
      transmitter is paused throughout, and not at its end. */
  ghost predicate Stall(es: seq<real>, full: real, from: real, to: real) {
    && from < to
    && (forall t :: from <= t < to ==> Paused(es, full, t))
    && !Paused(es, full, to)
  }

  /** A MAC that honours Q = 0, and sends again within a millisecond, passes every valid
      attempt; the stall is one unbroken pause. */
  lemma HonouredPasses(w: Attempt, full: real, frame: real, slack: real, es: seq<real>, ex: real, wait: real)
    requires Clocked(w) && Admissible(w, frame, es, ex) && SlackOf(w, full, frame, slack)
    requires slack > 0.0 && 0.0 <= wait <= MS
    ensures Lo(w, frame) <= ex + wait - es[0] <= Hi(w, frame)
    ensures var v := Verdict(w, full, frame, slack, ex + wait - es[0]);
      Passes(v) && v.told == if Ignored(w, full, frame) > Hi(w, frame) then Counted(true) else NotCounted
    ensures forall t :: es[0] <= t < ex ==> Paused(es, full, t)
  {
    forall t | es[0] <= t < ex ensures Paused(es, full, t) { NoBreak(w, full, frame, es, ex, t); }
  }

  /** One that ignores it stalls until the last pause runs out, at least Ignored long; and
      wherever the verdict counts, it fails. */
  lemma IgnoredFails(w: Attempt, full: real, frame: real, slack: real, es: seq<real>, ex: real, wait: real)
    requires Clocked(w) && Admissible(w, frame, es, ex) && SlackOf(w, full, frame, slack)
    requires slack > 0.0 && wait >= 0.0 && full > 0.0
    ensures var end := es[|es| - 1] + full;
      && Stall(es, full, es[0], end)
      && end - es[0] >= Ignored(w, full, frame)
      && (Ignored(w, full, frame) > Hi(w, frame) ==>
            var v := Verdict(w, full, frame, slack, end + wait - es[0]);
            !Passes(v) && v.told == Counted(false))
  {
    var end := es[|es| - 1] + full;
    assert es[0] <= es[|es| - 1] || |es| == 1;
    forall t | es[0] <= t <= end ensures Paused(es, full, t) <==> t < end { NoBreak(w, full, frame, es, ex, t); }
  }

  /** A gap shorter than the pauses asked for, as when they were ignored, or longer than
      until Q = 0, fails too. */
  lemma OutsideFails(w: Attempt, full: real, frame: real, slack: real, gap: real)
    requires w.edges != [] && !(Lo(w, frame) <= gap <= Hi(w, frame))
    ensures !Passes(Verdict(w, full, frame, slack, gap))
  {
  }

  /** An attempt whose pauses may have run out never passes. */
  lemma BreakFails(w: Attempt, full: real, frame: real, slack: real, gap: real, k: nat)
    requires k < |w.edges| && SlackOf(w, full, frame, slack) && Margin(w, full, frame, k) <= 0.0
    ensures var v := Verdict(w, full, frame, slack, gap);
      !v.valid && !Passes(v) && v.told != Counted(true)
  {
  }

  // ------------------------------------------------------ the bounds are tight

  /** The latest first pause and the earliest Q = 0 make the shortest stall. */
  function Shortest(w: Attempt, frame: real): (es: seq<real>)
    requires w.edges != []
    ensures |es| == |w.edges|
  {
    var e := w.edges[0].t1 + 2.0 * frame;
    seq(|w.edges|, k requires 0 <= k < |w.edges| => if w.edges[k].t0 <= e then e else w.edges[k].t0)
  }

  lemma ShortestAdmissible(w: Attempt, frame: real, ex: real)
    requires Clocked(w) && frame >= 0.0
    requires w.edges[0].t1 + 2.0 * frame <= ex && w.x.t0 <= ex <= w.x.t1 + 2.0 * frame
    ensures Admissible(w, frame, Shortest(w, frame), ex)
  {
    EdgesInOrder(w);
    var es := Shortest(w, frame);
    forall k | 0 <= k < |es| ensures w.edges[k].t0 <= es[k] <= w.edges[k].t1 + 2.0 * frame && es[k] <= ex {
      assert w.edges[k].t0 <= w.edges[k].t1 <= w.x.t0 && (k == 0 || w.edges[0].t1 <= w.edges[k].t0);
    }
    forall j, k | 0 <= j < k < |es| ensures es[j] <= es[k] {
      assert w.edges[j].t0 <= w.edges[j].t1 <= w.edges[k].t0;
    }
  }

  /** Lo, when not negative, is the stall of some MAC that honours Q = 0. */
  lemma LoReached(w: Attempt, frame: real)
    requires Clocked(w) && frame >= 0.0 && Lo(w, frame) >= 0.0
    ensures var es := Shortest(w, frame);
      Admissible(w, frame, es, w.x.t0) && w.x.t0 - es[0] == Lo(w, frame)
  {
    ShortestAdmissible(w, frame, w.x.t0);
  }

  function Earliest(w: Attempt): (es: seq<real>)
    ensures |es| == |w.edges|
  {
    seq(|w.edges|, k requires 0 <= k < |w.edges| => w.edges[k].t0)
  }

  /** And Hi is always that of one: the earliest first pause, the latest Q = 0, and the
      whole millisecond until it sends again. */
  lemma HiReached(w: Attempt, frame: real)
    requires Clocked(w) && frame >= 0.0
    ensures var es, ex := Earliest(w), w.x.t1 + 2.0 * frame;
      Admissible(w, frame, es, ex) && ex + 0.001 - es[0] == Hi(w, frame)
  {
    EdgesInOrder(w);
    assert forall k :: 0 <= k < |w.edges| ==> w.edges[k].t0 <= w.edges[k].t1;
    assert forall j, k :: 0 <= j < k < |w.edges| ==> w.edges[j].t0 <= w.edges[j].t1 <= w.edges[k].t0;
  }

  /** With the last pause written after the first took effect, at the latest, Ignored is
      the stall of some MAC that ignores Q = 0. */
  lemma IgnoredReached(w: Attempt, full: real, frame: real)
    requires Clocked(w) && frame >= 0.0
    requires w.edges[0].t1 + 2.0 * frame <= w.edges[|w.edges| - 1].t0
    ensures var es := Shortest(w, frame);
      && Admissible(w, frame, es, w.x.t1 + 2.0 * frame)
      && es[|es| - 1] + full - es[0] == Ignored(w, full, frame)
  {
    hide Admissible, Clocked;
    LastBeforeX(w);
    ShortestAdmissible(w, frame, w.x.t1 + 2.0 * frame);
  }

  lemma LastBeforeX(w: Attempt)
    requires Clocked(w)
    ensures w.edges != [] && w.edges[|w.edges| - 1].t0 <= w.x.t0 <= w.x.t1
  {
    assert w.edges[|w.edges| - 1].t1 <= After(w, |w.edges| - 1).t0;
  }

  // ------------------------------------------------------ up to three attempts

  /** The attempt that counts: the first with positive slack, else the last of three. */
  method Choose(tries: seq<Attempt>, full: real, frame: real) returns (i: nat, slack: real)
    requires |tries| == 3 && forall w :: w in tries ==> w.edges != []
    ensures i < 3 && SlackOf(tries[i], full, frame, slack)
    ensures slack > 0.0 || i == 2
    ensures forall j, s :: 0 <= j < i && SlackOf(tries[j], full, frame, s) ==> s <= 0.0
  {
    i := 0;
    slack := Slack(tries[0], full, frame);
    while slack <= 0.0 && i < 2
      invariant i < 3 && SlackOf(tries[i], full, frame, slack)
      invariant forall j, s :: 0 <= j < i && SlackOf(tries[j], full, frame, s) ==> s <= 0.0
      decreases 2 - i
    {
      forall s | SlackOf(tries[i], full, frame, s) ensures s <= 0.0 {}
      i := i + 1;
      slack := Slack(tries[i], full, frame);
    }
  }
}
