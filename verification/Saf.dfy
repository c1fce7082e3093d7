/** The store-and-forward policy: which frames a byte stream with tlast marks puts on
    the wire (commit, truncate, drop). */
module Saf {

  const MIN_FRAME: nat := 60

  datatype Segment = Segment(data: seq<bv8>, last: bool)

  /** One byte accepted, and whether tlast came with it. */
  datatype Beat = Beat(b: bv8, last: bool)

  function Zeros(n: nat): (r: seq<bv8>)
    ensures |r| == n && forall k :: 0 <= k < n ==> r[k] == 0
  {
    seq(n, _ => 0)
  }

  /** Zero-padded to the minimum frame. */
  function Pad(p: seq<bv8>): (r: seq<bv8>)
    ensures p <= r && |r| == if |p| < 60 then 60 else |p|
    ensures forall k :: |p| <= k < |r| ==> r[k] == 0
  {
    if |p| < MIN_FRAME then p + Zeros(MIN_FRAME - |p|) else p
  }

  // ------------------------------------------------------ what the stream says

  /** The runs that a tlast ends, in order. */
  function Runs(s: seq<Beat>): seq<seq<bv8>>
    decreases |s|
  {
    if s == [] then []
    else
      var n := |s| - 1;
      if s[n].last then Runs(s[..n]) + [Tail(s[..n]) + [s[n].b]] else Runs(s[..n])
  }

  /** The bytes since the last tlast. */
  function Tail(s: seq<Beat>): seq<bv8>
    decreases |s|
  {
    if s == [] || s[|s| - 1].last then [] else Tail(s[..|s| - 1]) + [s[|s| - 1].b]
  }

  function Unmarked(r: seq<bv8>): seq<Beat> { seq(|r|, i requires 0 <= i < |r| => Beat(r[i], false)) }

  /** A run as beats, tlast on its last byte. */
  function Marked(r: seq<bv8>): seq<Beat>
    requires r != []
  {
    Unmarked(r[..|r| - 1]) + [Beat(r[|r| - 1], true)]
  }

  function MarkedAll(runs: seq<seq<bv8>>): seq<Beat>
    requires [] !in runs
  {
    if runs == [] then [] else MarkedAll(runs[..|runs| - 1]) + Marked(runs[|runs| - 1])
  }

  lemma UnmarkedMore(r: seq<bv8>, b: bv8)
    ensures Unmarked(r + [b]) == Unmarked(r) + [Beat(b, false)]
    ensures Unmarked([]) == []
  {
  }

  lemma LastBeat(s: seq<Beat>)
    requires s != []
    ensures var u, x := s[..|s| - 1], s[|s| - 1];
      && s == u + [x]
      && (x.last ==> Runs(s) == Runs(u) + [Tail(u) + [x.b]] && Tail(s) == [])
      && (!x.last ==> Runs(s) == Runs(u) && Tail(s) == Tail(u) + [x.b])
  {
  }

  /** Runs and tail are the stream, cut after each tlast and nowhere else. */
  lemma {:induction false} CutAtTlast(s: seq<Beat>)
    ensures [] !in Runs(s)
    ensures MarkedAll(Runs(s)) + Unmarked(Tail(s)) == s
    decreases |s|
  {
    if s != [] {
      hide Runs, Tail, MarkedAll, Unmarked;
      var u, x := s[..|s| - 1], s[|s| - 1];
      LastBeat(s);
      CutAtTlast(u);
      UnmarkedMore(Tail(u), x.b);
      assert x == Beat(x.b, x.last);
      if x.last { MarkedRun(u, x.b); }
    }
  }

  lemma MarkedLast(r: seq<bv8>, b: bv8)
    ensures Marked(r + [b]) == Unmarked(r) + [Beat(b, true)]
  {
    hide Unmarked;
    assert (r + [b])[..|r|] == r;
  }

  lemma MarkedAllMore(runs: seq<seq<bv8>>, r: seq<bv8>)
    requires [] !in runs && r != []
    ensures MarkedAll(runs + [r]) == MarkedAll(runs) + Marked(r)
  {
    hide Marked;
    assert (runs + [r])[..|runs|] == runs;
  }

  lemma MarkedRun(s: seq<Beat>, b: bv8)
    requires [] !in Runs(s)
    ensures var r, runs := Tail(s) + [b], Runs(s);
      MarkedAll(runs + [r]) == MarkedAll(runs) + Unmarked(Tail(s)) + [Beat(b, true)]
  {
    hide Unmarked, Marked, MarkedAll, Runs, Tail;
    MarkedLast(Tail(s), b);
    MarkedAllMore(Runs(s), Tail(s) + [b]);
  }

  // ------------------------------------------------------ the policy

  predicate Reaches(r: seq<bv8>, maxFrame: int) { 1 <= maxFrame <= |r| }

  /** What of a run is sent: its first maxFrame bytes, padded. */
  function Committed(r: seq<bv8>, maxFrame: int): seq<bv8> {
    Pad(if Reaches(r, maxFrame) then r[..maxFrame] else r)
  }

  function CommittedAll(runs: seq<seq<bv8>>, maxFrame: int): (frames: seq<seq<bv8>>)
    ensures |frames| == |runs|
    ensures forall k :: 0 <= k < |runs| ==> frames[k] == Committed(runs[k], maxFrame)
  {
    seq(|runs|, k requires 0 <= k < |runs| => Committed(runs[k], maxFrame))
  }

  /** Each run ended by tlast gives exactly one frame, a tail gives one only once it
      reached maxFrame, and each frame is cut from one run alone. */
  function Expected(s: seq<Beat>, maxFrame: int): seq<seq<bv8>> {
    CommittedAll(Runs(s), maxFrame)
    + if Reaches(Tail(s), maxFrame) then [Committed(Tail(s), maxFrame)] else []
  }

  /** One beat more. */
  lemma ExpectedStep(s: seq<Beat>, x: Beat, maxFrame: int)
    ensures var t, before := Tail(s), Expected(s, maxFrame);
      Expected(s + [x], maxFrame) ==
        if Reaches(t, maxFrame) then before
        else if x.last || Reaches(t + [x.b], maxFrame) then before + [Committed(t + [x.b], maxFrame)]
        else before
    ensures Tail(s + [x]) == if x.last then [] else Tail(s) + [x.b]
  {
    hide Pad;
    assert (s + [x])[..|s|] == s;
    if x.last { RunEnds(s, x, maxFrame); } else { RunGrows(s, x, maxFrame); }
  }

  lemma RunEnds(s: seq<Beat>, x: Beat, maxFrame: int)
    requires x.last
    ensures var t, before := Tail(s), Expected(s, maxFrame);
      Expected(s + [x], maxFrame) ==
        if Reaches(t, maxFrame) then before else before + [Committed(t + [x.b], maxFrame)]
  {
    hide Pad;
    var t := Tail(s);
    assert (s + [x])[..|s|] == s;
    if Reaches(t, maxFrame) { assert (t + [x.b])[..maxFrame] == t[..maxFrame]; }
    assert CommittedAll(Runs(s) + [t + [x.b]], maxFrame)
        == CommittedAll(Runs(s), maxFrame) + [Committed(t + [x.b], maxFrame)];
  }

  lemma RunGrows(s: seq<Beat>, x: Beat, maxFrame: int)
    requires !x.last
    ensures var t, before := Tail(s), Expected(s, maxFrame);
      Expected(s + [x], maxFrame) ==
        if Reaches(t, maxFrame) || !Reaches(t + [x.b], maxFrame) then before
        else before + [Committed(t + [x.b], maxFrame)]
  {
    hide Pad, CommittedAll;
    var t := Tail(s);
    assert (s + [x])[..|s|] == s;
    if Reaches(t, maxFrame) { assert (t + [x.b])[..maxFrame] == t[..maxFrame]; }
  }

  /** What a stream has put on the wire stays, however it goes on. */
  lemma {:induction false} PrefixKept(s: seq<Beat>, t: seq<Beat>, maxFrame: int)
    ensures Expected(s, maxFrame) <= Expected(s + t, maxFrame)
    decreases |t|
  {
    hide Expected, Tail;
    if t == [] {
      assert s + t == s;
    } else {
      var n := |t| - 1;
      PrefixKept(s, t[..n], maxFrame);
      ExpectedStep(s + t[..n], t[n], maxFrame);
      assert s + t == s + t[..n] + [t[n]];
    }
  }

  // ------------------------------------------------------ the reference loop

  /** A segment's beats: an empty segment marked last marks nothing. */
  function Beats(g: seq<Segment>): seq<Beat> {
    if g == [] then []
    else Beats(g[..|g| - 1]) + SegmentBeats(g[|g| - 1])
  }

  function SegmentBeats(g: Segment): (r: seq<Beat>)
    ensures |r| == |g.data|
    ensures g.data == [] ==> r == []
  {
    seq(|g.data|, i requires 0 <= i < |g.data| => Beat(g.data[i], g.last && i == |g.data| - 1))
  }

  // ------------------------------------------------------ what the segments say

  /** tlast comes with a segment's last byte, if at all. */
  lemma SegmentIs(g: Segment)
    requires g.data != []
    ensures SegmentBeats(g) == if g.last then Marked(g.data) else Unmarked(g.data)
  {
    var n := |g.data| - 1;
    if g.last {
      assert forall i :: 0 <= i < n ==> Marked(g.data)[i] == Unmarked(g.data[..n])[i];
    }
  }

  lemma {:induction false} UnmarkedJoins(s: seq<Beat>, r: seq<bv8>)
    ensures Runs(s + Unmarked(r)) == Runs(s)
    ensures Tail(s + Unmarked(r)) == Tail(s) + r
    decreases |r|
  {
    hide Unmarked, Runs, Tail;
    if r == [] {
      UnmarkedMore([], 0);
      assert s + Unmarked(r) == s;
    } else {
      var n := |r| - 1;
      var m := s + Unmarked(r[..n]);
      assert r == r[..n] + [r[n]];
      UnmarkedMore(r[..n], r[n]);
      assert s + Unmarked(r) == m + [Beat(r[n], false)];
      UnmarkedJoins(s, r[..n]);
      LastBeat(m + [Beat(r[n], false)]);
      assert (m + [Beat(r[n], false)])[..|m|] == m;
    }
  }

  lemma MarkedEnds(s: seq<Beat>, r: seq<bv8>)
    requires r != []
    ensures Runs(s + Marked(r)) == Runs(s) + [Tail(s) + r]
    ensures Tail(s + Marked(r)) == []
  {
    hide Unmarked, Runs, Tail;
    var n := |r| - 1;
    var m := s + Unmarked(r[..n]);
    UnmarkedJoins(s, r[..n]);
    assert s + Marked(r) == m + [Beat(r[n], true)];
    LastBeat(m + [Beat(r[n], true)]);
    assert (m + [Beat(r[n], true)])[..|m|] == m;
    assert Tail(s) + r[..n] + [r[n]] == Tail(s) + r;
  }

  /** One segment more: an empty one is nothing, one marked last ends the run it is part
      of, any other joins the next. */
  lemma SegmentJoins(g: seq<Segment>, x: Segment)
    ensures var s, t := Beats(g), Beats(g + [x]);
      if x.data == [] then t == s
      else if x.last then Runs(t) == Runs(s) + [Tail(s) + x.data] && Tail(t) == []
      else Runs(t) == Runs(s) && Tail(t) == Tail(s) + x.data
  {
    hide Runs, Tail, Marked, Unmarked, SegmentBeats;
    assert (g + [x])[..|g|] == g;
    if x.data != [] {
      SegmentIs(x);
      if x.last { MarkedEnds(Beats(g), x.data); } else { UnmarkedJoins(Beats(g), x.data); }
    } else {
      assert Beats(g) + SegmentBeats(x) == Beats(g);
    }
  }

  predicate Whole(g: seq<Segment>) { forall k :: 0 <= k < |g| ==> g[k].data != [] && g[k].last }

  function Datas(g: seq<Segment>): (r: seq<seq<bv8>>)
    ensures |r| == |g|
    ensures forall k :: 0 <= k < |g| ==> r[k] == g[k].data
  {
    seq(|g|, k requires 0 <= k < |g| => g[k].data)
  }

  /** Segments all marked last are the runs, one by one. */
  lemma {:induction false} WholeRuns(g: seq<Segment>)
    requires Whole(g)
    ensures Runs(Beats(g)) == Datas(g) && Tail(Beats(g)) == []
    decreases |g|
  {
    if g != [] {
      hide Runs, Tail, Beats;
      var n := |g| - 1;
      WholeRuns(g[..n]);
      SegmentJoins(g[..n], g[n]);
      assert g == g[..n] + [g[n]];
      assert Tail(Beats(g[..n])) + g[n].data == g[n].data;
      assert Datas(g) == Datas(g[..n]) + [g[n].data];
    }
  }

  /** So they go out one by one, cut to maxFrame, padded to 60 bytes. */
  lemma WholeFrames(g: seq<Segment>, maxFrame: int)
    requires Whole(g)
    ensures var f := Expected(Beats(g), maxFrame);
      && |f| == |g|
      && forall k :: 0 <= k < |g| ==>
           f[k] == Pad(if 1 <= maxFrame < |g[k].data| then g[k].data[..maxFrame] else g[k].data)
  {
    hide Runs, Tail, Beats, Pad;
    WholeRuns(g);
    forall k | 0 <= k < |g|
      ensures Committed(g[k].data, maxFrame)
           == Pad(if 1 <= maxFrame < |g[k].data| then g[k].data[..maxFrame] else g[k].data)
    {
      if Reaches(g[k].data, maxFrame) && maxFrame == |g[k].data| { assert g[k].data[..maxFrame] == g[k].data; }
    }
  }

  /** Bytes with no tlast behind them add a frame only once they reach maxFrame. */
  lemma OpenTail(g: seq<Segment>, data: seq<bv8>, maxFrame: int)
    requires Whole(g)
    ensures Expected(Beats(g + [Segment(data, false)]), maxFrame) ==
      Expected(Beats(g), maxFrame) + if 1 <= maxFrame <= |data| then [Pad(data[..maxFrame])] else []
  {
    hide Runs, Tail, Beats, Pad, CommittedAll;
    WholeRuns(g);
    SegmentJoins(g, Segment(data, false));
    assert [] + data == data;
    assert CommittedAll(Runs(Beats(g)), maxFrame) + [] == CommittedAll(Runs(Beats(g)), maxFrame);
  }

  method Flatten(segments: seq<Segment>) returns (stream: seq<Beat>)
    ensures stream == Beats(segments)
  {
    stream := [];
    for k := 0 to |segments|
      invariant stream == Beats(segments[..k])
    {
      var seg := segments[k];
      var n := |seg.data|;
      for i := 0 to n
        invariant stream == Beats(segments[..k]) + SegmentBeats(seg)[..i]
      {
        stream := stream + [Beat(seg.data[i], seg.last && i == n - 1)];
      }
      assert segments[..k + 1][..k] == segments[..k];
      assert SegmentBeats(seg)[..n] == SegmentBeats(seg);
    }
    assert segments[..|segments|] == segments;
  }

  lemma ExpectedNone(maxFrame: int)
    ensures Expected([], maxFrame) == [] && Tail([]) == []
  {
  }

  lemma CommittedWhole(r: seq<bv8>, maxFrame: int)
    requires |r| <= maxFrame || maxFrame < 1
    ensures Committed(r, maxFrame) == Pad(r)
  {
    if Reaches(r, maxFrame) { assert r[..maxFrame] == r; }
  }

  method SafExpected(segments: seq<Segment>, maxFrame: int) returns (frames: seq<seq<bv8>>)
    ensures frames == Expected(Beats(segments), maxFrame)
  {
    hide Expected, Tail, Committed, Pad, Beats;
    var stream := Flatten(segments);
    assert Expected(stream[..0], maxFrame) == [] && Tail(stream[..0]) == [] by { ExpectedNone(maxFrame); }
    frames := [];
    var cur: seq<bv8> := [];
    var dropping := false;
    for i := 0 to |stream|
      invariant frames == Expected(stream[..i], maxFrame)
      invariant dropping <==> Reaches(Tail(stream[..i]), maxFrame)
      invariant !dropping ==> cur == Tail(stream[..i])
      invariant dropping ==> cur == []
      invariant cur != [] && maxFrame >= 1 ==> |cur| < maxFrame
    {
      var x := stream[i];
      ExpectedStep(stream[..i], x, maxFrame);
      assert stream[..i + 1] == stream[..i] + [x];
      if dropping {
        if x.last { dropping := false; }
        continue;
      }
      cur := cur + [x.b];
      var forced := |cur| == maxFrame && !x.last;
      if x.last || forced {
        CommittedWhole(cur, maxFrame);
        frames := frames + [Pad(cur)];
        cur := [];
        if forced { dropping := true; }
      }
    }
    assert stream[..|stream|] == stream;
  }
}
