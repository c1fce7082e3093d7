/** The MAC's saturating 32-bit counters and their 64-bit totals in software, with
    counter events arriving between any two register accesses. */
module Stats {

  const N: nat := 21
  const GROUPS: nat := 3
  const MAX: nat := 0xFFFFFFFF
  const FOLD: nat := 0x80000000
  const TX_FRAME: nat := 0x28
  const RX_DROP: nat := 0x7c
  const PAUSE_TX: nat := 0x90

  /** The counters' registers, in table order. */
  const REGS: seq<nat> := [
    TX_FRAME, 0x2c,
    0x30, 0x34, 0x38, 0x4c, 0x50, 0x54, 0x58, 0x5c, 0x60, 0x64, 0x68, 0x6c, 0x70, 0x74, 0x78, RX_DROP, 0x80,
    0x8c, PAUSE_TX]

  /** Group g has the counters from First(g) to First(g + 1). */
  function First(g: nat): (i: nat)
    ensures i <= N
  {
    if g == 0 then 0 else if g == 1 then 2 else if g == 2 then 19 else N
  }

  predicate InGroup(i: nat, g: nat) { First(g) <= i < First(g + 1) }

  function Group(i: nat): (g: nat)
    requires i < N
    ensures g < GROUPS && InGroup(i, g)
    ensures forall h: nat :: h < GROUPS && InGroup(i, h) ==> h == g
  {
    if i < 2 then 0 else if i < 19 then 1 else 2
  }

  function ClearReg(g: nat): nat
    requires g < GROUPS
  {
    if g == 0 then TX_FRAME else if g == 1 then RX_DROP else 0x8c
  }

  // ------------------------------------------------------ arriving events

  /** arrive(t, i): events of counter i between register accesses t - 1 and t. */
  type Arrivals = (nat, nat) -> nat

  /** Events of counter i seen by accesses from up to, not including, to. */
  function Sum(a: Arrivals, i: nat, from: nat, to: nat): nat
    decreases to
  {
    if to <= from then 0 else Sum(a, i, from, to - 1) + a(to - 1, i)
  }

  lemma {:induction false} SumSplits(a: Arrivals, i: nat, x: nat, y: nat, z: nat)
    requires x <= y <= z
    ensures Sum(a, i, x, z) == Sum(a, i, x, y) + Sum(a, i, y, z)
    decreases z
  {
    if y < z { SumSplits(a, i, x, y, z - 1); }
  }

  function Saturate(x: nat): nat { if x <= MAX then x else MAX }

  /** The counters as access now finds them. */
  function Arrived(regs: seq<nat>, a: Arrivals, now: nat): (r: seq<nat>)
    ensures |r| == |regs|
    ensures forall i :: 0 <= i < |regs| ==> r[i] == Saturate(regs[i] + a(now, i))
  {
    seq<nat>(|regs|, i requires 0 <= i < |regs| => Saturate(regs[i] + a(now, i)))
  }

  // ------------------------------------------------------ the totals

  /** Software totals, the MAC's counters, and how many accesses were made. */
  datatype State = State(acc: seq<nat>, regs: seq<nat>, now: nat)

  predicate Valid(s: State) { |s.acc| == N && |s.regs| == N && forall i :: 0 <= i < N ==> s.regs[i] <= MAX }

  /** The counters after n more accesses, none of them a clear. */
  function Later(s: State, a: Arrivals, n: nat): (r: seq<nat>)
    requires Valid(s)
    ensures |r| == N
    ensures forall i :: 0 <= i < N ==> r[i] == Saturate(s.regs[i] + Sum(a, i, s.now, s.now + n))
  {
    seq<nat>(N, i requires 0 <= i < N => Saturate(s.regs[i] + Sum(a, i, s.now, s.now + n)))
  }

  lemma LaterStep(s: State, a: Arrivals, n: nat)
    requires Valid(s)
    ensures Later(s, a, 0) == s.regs
    ensures Arrived(Later(s, a, n), a, s.now + n) == Later(s, a, n + 1)
  {
  }

  /** Reading counters alone. */
  function Waited(s: State, a: Arrivals, n: nat): (t: State)
    requires Valid(s)
    ensures Valid(t)
  {
    State(s.acc, Later(s, a, n), s.now + n)
  }

  /** Group g read backwards into the totals, then cleared: counter i is read
      First(g + 1) - i accesses on, the clear one after all reads. */
  function GroupFolded(s: State, a: Arrivals, g: nat): (t: State)
    requires Valid(s) && g < GROUPS
    ensures Valid(t)
  {
    var clear := First(g + 1) - First(g) + 1;
    State(
      AccDown(s, a, g, 0),
      seq<nat>(N, i requires 0 <= i < N => if InGroup(i, g) then 0 else Later(s, a, clear)[i]),
      s.now + clear)
  }

  /** Whether the scan, having read k counters, found one of group g at 2^31 or more. */
  predicate Found(s: State, a: Arrivals, g: nat, k: nat)
    requires Valid(s) && k <= N
  {
    exists i :: 0 <= i < k && InGroup(i, g) && Later(s, a, i + 1)[i] >= FOLD
  }

  predicate MustFold(s: State, a: Arrivals, g: nat)
    requires Valid(s)
  {
    Found(s, a, g, N)
  }

  lemma FoundStep(s: State, a: Arrivals, k: nat)
    requires Valid(s) && k < N
    ensures forall g: nat :: g < GROUPS ==>
      (Found(s, a, g, k + 1) <==> Found(s, a, g, k) || (g == Group(k) && Later(s, a, k + 1)[k] >= FOLD))
    ensures forall g: nat :: g < GROUPS ==> !Found(s, a, g, 0)
  {
    hide Later;
    forall g: nat | g < GROUPS
      ensures Found(s, a, g, k + 1) <==> Found(s, a, g, k) || (g == Group(k) && Later(s, a, k + 1)[k] >= FOLD)
    {
      if g == Group(k) && Later(s, a, k + 1)[k] >= FOLD { assert InGroup(k, g); }
    }
  }

  function Flags(s: State, a: Arrivals, k: nat): (f: seq<bool>)
    requires Valid(s) && k <= N
    ensures |f| == GROUPS
  {
    [Found(s, a, 0, k), Found(s, a, 1, k), Found(s, a, 2, k)]
  }

  lemma FlagsStep(s: State, a: Arrivals, k: nat)
    requires Valid(s) && k < N
    ensures Flags(s, a, 0) == [false, false, false]
    ensures Flags(s, a, k + 1) ==
      if Later(s, a, k + 1)[k] >= FOLD then Flags(s, a, k)[Group(k) := true] else Flags(s, a, k)
  {
    hide Later, Found, Group;
    FoundStep(s, a, 0);
    FoundStep(s, a, k);
  }

  /** The totals once the walk down group g has passed counter i. */
  function AccDown(s: State, a: Arrivals, g: nat, i: nat): (r: seq<nat>)
    requires Valid(s) && g < GROUPS
    ensures |r| == N
  {
    seq<nat>(N, j requires 0 <= j < N =>
      if j >= i && InGroup(j, g) then s.acc[j] + Later(s, a, First(g + 1) - j)[j] else s.acc[j])
  }

  lemma AccDownStep(s: State, a: Arrivals, g: nat, i: nat)
    requires Valid(s) && g < GROUPS && i < N
    ensures AccDown(s, a, g, i) == if InGroup(i, g)
      then AccDown(s, a, g, i + 1)[i := AccDown(s, a, g, i + 1)[i] + Later(s, a, First(g + 1) - i)[i]]
      else AccDown(s, a, g, i + 1)
    ensures AccDown(s, a, g, N) == s.acc
  {
    hide Later;
  }

  function MaybeFolded(s: State, a: Arrivals, must: bool, g: nat): (t: State)
    requires Valid(s) && g < GROUPS
    ensures Valid(t)
  {
    if must then GroupFolded(s, a, g) else s
  }

  /** emz_stats_fold(): scan all counters, then fold each group that must. */
  function Folded(s: State, a: Arrivals): (t: State)
    requires Valid(s)
    ensures Valid(t)
  {
    var s0 := Waited(s, a, N);
    var s1 := MaybeFolded(s0, a, MustFold(s, a, 0), 0);
    var s2 := MaybeFolded(s1, a, MustFold(s, a, 1), 1);
    MaybeFolded(s2, a, MustFold(s, a, 2), 2)
  }

  /** What emz_tx_mac_frames() reports from state s: TX_FRAME, then less PAUSE_TX. */
  function MacFrames(s: State, a: Arrivals): int
    requires Valid(s)
  {
    var t := Waited(s, a, 1);
    var u := Waited(t, a, 1);
    (t.acc[0] + t.regs[0]) as int - (u.acc[20] + u.regs[20]) as int
  }

  // ------------------------------------------------------ the driver's loops

  class Counters {
    const arrive: Arrivals
    const acc: array<nat>
    var regs: seq<nat>
    var now: nat

    ghost predicate Ok()
      reads this, acc
    {
      acc.Length == N && Valid(Abs())
    }

    ghost function Abs(): State
      reads this, acc
    {
      State(acc[..], regs, now)
    }

    constructor (arrive: Arrivals)
      ensures Ok() && fresh(acc) && this.arrive == arrive
      ensures Abs() == State(seq(N, _ => 0), seq(N, _ => 0), 0)
    {
      this.arrive := arrive;
      acc := new nat[N](_ => 0);
      regs := seq(N, _ => 0);
      now := 0;
      new;
      assert acc[..] == seq(N, _ => 0);
    }

    /** emz_rd() of counter i. */
    method Read(i: nat) returns (v: nat)
      requires Ok() && i < N
      modifies `regs, `now
      ensures Ok() && now == old(now) + 1 && regs == Arrived(old(regs), arrive, old(now))
      ensures v == regs[i]
    {
      regs := Arrived(regs, arrive, now);
      now := now + 1;
      v := regs[i];
    }

    /** emz_wr() to a counter: its whole group is cleared. */
    method Clear(reg: nat, ghost g: nat)
      requires Ok() && g < GROUPS && reg == ClearReg(g)
      modifies `regs, `now
      ensures Ok() && now == old(now) + 1
      ensures forall i :: 0 <= i < N ==>
        regs[i] == if InGroup(i, g) then 0 else Arrived(old(regs), arrive, old(now))[i]
    {
      ClearsItsGroup(g);
      var h := Group(FindReg(reg));
      var r := Arrived(regs, arrive, now);
      regs := seq(N, i requires 0 <= i < N => if InGroup(i, h) then 0 else r[i]);
      now := now + 1;
    }

    /** emz_stats_fold() */
    method Fold()
      requires Ok()
      modifies this, acc
      ensures Ok() && Abs() == Folded(old(Abs()), arrive)
    {
      ghost var s := Abs();
      var fold := Scan();
      ghost var s0 := Abs();
      if fold[0] { FoldGroup(0); }
      ghost var s1 := Abs();
      assert s1 == MaybeFolded(s0, arrive, MustFold(s, arrive, 0), 0);
      if fold[1] { FoldGroup(1); }
      ghost var s2 := Abs();
      assert s2 == MaybeFolded(s1, arrive, MustFold(s, arrive, 1), 1);
      if fold[2] { FoldGroup(2); }
    }

    method Scan() returns (fold: seq<bool>)
      requires Ok()
      modifies `regs, `now
      ensures Ok() && Abs() == Waited(old(Abs()), arrive, N)
      ensures |fold| == GROUPS
      ensures fold == Flags(old(Abs()), arrive, N)
    {
      hide Later, Arrived, Flags, Group;
      ghost var s := Abs();
      fold := [false, false, false];
      LaterStep(s, arrive, 0);
      FlagsStep(s, arrive, 0);
      for i := 0 to N
        invariant Ok() && acc[..] == s.acc && now == s.now + i && regs == Later(s, arrive, i)
        invariant |fold| == GROUPS && fold == Flags(s, arrive, i)
      {
        LaterStep(s, arrive, i);
        FlagsStep(s, arrive, i);
        var v := Read(i);
        if v >= FOLD { fold := fold[Group(i) := true]; }
      }
    }

    method FoldGroup(g: nat)
      requires Ok() && g < GROUPS
      modifies `regs, `now, acc
      ensures Ok() && Abs() == GroupFolded(old(Abs()), arrive, g)
    {
      ghost var s := Abs();
      ReadGroup(g);
      LaterStep(s, arrive, First(g + 1) - First(g));
      Clear(ClearReg(g), g);
      assert Abs().acc == GroupFolded(s, arrive, g).acc;
      assert Abs().regs == GroupFolded(s, arrive, g).regs;
    }

    /** How many counters of group g a walk down to i has read. */
    static function ReadDownTo(i: nat, g: nat): nat {
      var hi := First(g + 1);
      if i >= hi then 0 else if i >= First(g) then hi - i else if hi >= First(g) then hi - First(g) else 0
    }

    static lemma ReadDownStep(i: nat, g: nat)
      requires i <= N && g < GROUPS
      ensures i == N ==> ReadDownTo(i, g) == 0
      ensures i == 0 ==> ReadDownTo(i, g) == First(g + 1) - First(g)
      ensures InGroup(i, g) ==> ReadDownTo(i, g) == ReadDownTo(i + 1, g) + 1 == First(g + 1) - i
      ensures !InGroup(i, g) ==> ReadDownTo(i, g) == ReadDownTo(i + 1, g)
    {
    }

    method ReadGroup(g: nat)
      requires Ok() && g < GROUPS
      modifies `regs, `now, acc
      ensures Ok() && now == old(now) + First(g + 1) - First(g)
      ensures regs == Later(old(Abs()), arrive, First(g + 1) - First(g))
      ensures acc[..] == AccDown(old(Abs()), arrive, g, 0)
    {
      hide First, ReadDownTo, Later, Arrived, AccDown, Group, InGroup;
      ghost var s := Abs();
      ReadDownStep(N, g);
      AccDownStep(s, arrive, g, 0);
      var i: nat := N;
      LaterStep(s, arrive, 0);
      while i > 0
        invariant i <= N && Ok() && WalkedTo(s, g, i)
      {
        i := i - 1;
        ReadInto(i, g, s);
      }
      ReadDownStep(0, g);
    }

    /** The walk of group g, started in s, has come down to counter i. */
    ghost predicate WalkedTo(s: State, g: nat, i: nat)
      requires Valid(s) && g < GROUPS
      reads this, acc
    {
      && now == s.now + ReadDownTo(i, g) && regs == Later(s, arrive, ReadDownTo(i, g))
      && acc[..] == AccDown(s, arrive, g, i)
    }

    method ReadInto(i: nat, g: nat, ghost s: State)
      requires Valid(s) && g < GROUPS && i < N && Ok() && WalkedTo(s, g, i + 1)
      modifies `regs, `now, acc
      ensures Ok() && WalkedTo(s, g, i)
    {
      hide First, ReadDownTo, Later, Arrived, AccDown, Group, InGroup;
      ReadDownStep(i, g);
      AccDownStep(s, arrive, g, i);
      if Group(i) == g {
        LaterStep(s, arrive, ReadDownTo(i + 1, g));
        var v := Read(i);
        acc[i] := acc[i] + v;
      }
    }

    /** emz_stat_total() */
    method Total(i: nat) returns (v: nat)
      requires Ok() && i < N
      modifies `regs, `now
      ensures Ok() && Abs() == Waited(old(Abs()), arrive, 1)
      ensures v == acc[i] + regs[i]
    {
      LaterStep(Abs(), arrive, 0);
      v := Read(i);
      v := acc[i] + v;
    }

    /** emz_stat_reg_total(): the counter with that register, 0 if there is none. */
    method RegTotal(reg: nat) returns (v: nat)
      requires Ok()
      modifies `regs, `now
      ensures Ok()
      ensures reg in REGS ==> Abs() == Waited(old(Abs()), arrive, 1) && v == acc[FindReg(reg)] + regs[FindReg(reg)]
      ensures reg !in REGS ==> v == 0 && Abs() == old(Abs())
    {
      for i := 0 to N
        invariant Abs() == old(Abs()) && Ok()
        invariant forall j :: 0 <= j < i ==> REGS[j] != reg
      {
        if REGS[i] == reg {
          assert reg in REGS && FindReg(reg) == i;
          v := Total(i);
          return;
        }
      }
      v := 0;
    }

    /** emz_tx_mac_frames(), before any wrap at 2^64. */
    method TxMacFrames() returns (n: int)
      requires Ok()
      modifies `regs, `now
      ensures Ok() && Abs() == Waited(Waited(old(Abs()), arrive, 1), arrive, 1)
      ensures n == MacFrames(old(Abs()), arrive)
    {
      hide Later, Arrived;
      RowOf(0);
      RowOf(20);
      var sent := RegTotal(TX_FRAME);
      var pause := RegTotal(PAUSE_TX);
      n := sent as int - pause as int;
    }
  }

  /** The table row with that register. */
  function FindReg(reg: nat): (i: nat)
    requires reg in REGS
    ensures i < N && REGS[i] == reg
    ensures forall j :: 0 <= j < i ==> REGS[j] != reg
  {
    FindFrom(REGS, reg, 0)
  }

  /** Every row has its own register. */
  lemma RowsApart(i: nat, j: nat)
    requires i < j < N
    ensures REGS[i] != REGS[j]
  {
  }

  lemma RowOf(i: nat)
    requires i < N
    ensures REGS[i] in REGS && FindReg(REGS[i]) == i
  {
    var k := FindReg(REGS[i]);
    if k < i { RowsApart(k, i); }
  }

  /** The register that clears a group is one of its counters. */
  lemma ClearsItsGroup(g: nat)
    requires g < GROUPS
    ensures ClearReg(g) in REGS && Group(FindReg(ClearReg(g))) == g
  {
    var i := if g == 0 then 0 else if g == 1 then 17 else 19;
    assert REGS[i] == ClearReg(g);
    RowOf(i);
  }

  function FindFrom(regs: seq<nat>, reg: nat, k: nat): (i: nat)
    requires k <= |regs| && reg in regs[k..]
    ensures k <= i < |regs| && regs[i] == reg
    ensures forall j :: k <= j < i ==> regs[j] != reg
    decreases |regs| - k
  {
    if regs[k] == reg then k else
      assert regs[k..] == [regs[k]] + regs[k + 1..];
      FindFrom(regs, reg, k + 1)
  }

  // ------------------------------------------------------ what the totals mean

  function Total(s: State, i: nat): nat
    requires Valid(s) && i < N
  {
    s.acc[i] + s.regs[i]
  }

  /** True events of counter i up to the last access. */
  function Truth(s: State, a: Arrivals, i: nat): nat { Sum(a, i, 0, s.now) }

  predicate NeverAbove(s: State, a: Arrivals) {
    Valid(s) && forall i :: 0 <= i < N ==> Total(s, i) <= Truth(s, a, i)
  }

  /** The access, counted from the fold's start, that clears group g. */
  function ClearAt(s: State, a: Arrivals, g: nat): nat
    requires Valid(s) && g < GROUPS
  {
    var n0 := N + if g > 0 && MustFold(s, a, 0) then First(1) - First(0) + 1 else 0;
    var n1 := n0 + if g > 1 && MustFold(s, a, 1) then First(2) - First(1) + 1 else 0;
    n1 + First(g + 1) - First(g)
  }

  /** Arrivals seen by the accesses after counter i's read, up to its group's clear: one
      batch for the first counter of the table's group, one more for each after it. */
  function Lost(s: State, a: Arrivals, i: nat): nat
    requires Valid(s) && i < N
  {
    var g := Group(i);
    if MustFold(s, a, g) then
      var clear := s.now + ClearAt(s, a, g);
      Sum(a, i, clear - (i - First(g)), clear + 1)
    else 0
  }

  /** Counter i ran on from s to t, neither folded nor cleared. */
  predicate Ran(s: State, t: State, a: Arrivals, i: nat)
    requires Valid(s) && Valid(t) && i < N
  {
    && t.now >= s.now && t.acc[i] == s.acc[i]
    && t.regs[i] == Saturate(s.regs[i] + Sum(a, i, s.now, t.now))
  }

  lemma RanOn(s: State, t: State, u: State, a: Arrivals, i: nat)
    requires Valid(s) && Valid(t) && Valid(u) && i < N
    requires Ran(s, t, a, i) && Ran(t, u, a, i)
    ensures Ran(s, u, a, i)
  {
    SumSplits(a, i, s.now, t.now, u.now);
  }

  lemma NotItsGroup(s: State, a: Arrivals, must: bool, g: nat, i: nat)
    requires Valid(s) && g < GROUPS && i < N && !(must && InGroup(i, g))
    ensures Ran(s, MaybeFolded(s, a, must, g), a, i)
    ensures MaybeFolded(s, a, must, g).now == s.now + if must then First(g + 1) - First(g) + 1 else 0
  {
  }

  /** Its group's fold, started at s0 after running from s, then more from t0 to t. */
  lemma ItsGroup(s: State, s0: State, t: State, a: Arrivals, g: nat, i: nat)
    requires Valid(s) && Valid(s0) && Valid(t) && g < GROUPS && i < N && InGroup(i, g)
    requires Ran(s, s0, a, i) && Ran(GroupFolded(s0, a, g), t, a, i)
    ensures var clear := s0.now + First(g + 1) - First(g);
      && s.now <= clear - (i - First(g)) <= clear < t.now
      && t.acc[i] == s.acc[i] + Saturate(s.regs[i] + Sum(a, i, s.now, clear - (i - First(g))))
      && t.regs[i] == Saturate(Sum(a, i, clear + 1, t.now))
  {
    SumSplits(a, i, s.now, s0.now, s0.now + First(g + 1) - i);
  }

  predicate SeenFrom(s: State, t: State, a: Arrivals, i: nat)
    requires Valid(s) && Valid(t) && i < N
  {
    var g := Group(i);
    var clear := s.now + ClearAt(s, a, g);
    if MustFold(s, a, g) then
      && s.now <= clear - (i - First(g)) <= clear < t.now
      && t.acc[i] == s.acc[i] + Saturate(s.regs[i] + Sum(a, i, s.now, clear - (i - First(g))))
      && t.regs[i] == Saturate(Sum(a, i, clear + 1, t.now))
    else Ran(s, t, a, i)
  }

  /** Before its group's turn a counter just runs on. */
  lemma BeforeTurn(s: State, a: Arrivals, i: nat)
    requires Valid(s) && i < N
    ensures var s0 := Waited(s, a, N);
      var s1 := MaybeFolded(s0, a, MustFold(s, a, 0), 0);
      var s2 := MaybeFolded(s1, a, MustFold(s, a, 1), 1);
      && Ran(s, s0, a, i)
      && (Group(i) > 0 ==> Ran(s, s1, a, i))
      && (Group(i) > 1 ==> Ran(s, s2, a, i))
      && s0.now == s.now + N
      && s1.now == s0.now + (if MustFold(s, a, 0) then First(1) - First(0) + 1 else 0)
      && s2.now == s1.now + (if MustFold(s, a, 1) then First(2) - First(1) + 1 else 0)
  {
    hide GroupFolded, Ran, MustFold;
    var m0, m1 := MustFold(s, a, 0), MustFold(s, a, 1);
    var s0 := Waited(s, a, N);
    var s1 := MaybeFolded(s0, a, m0, 0);
    var s2 := MaybeFolded(s1, a, m1, 1);
    WaitedRan(s, a, N, i);
    FoldTakes(s0, a, m0, 0);
    FoldTakes(s1, a, m1, 1);
    if Group(i) > 0 {
      NotItsGroup(s0, a, m0, 0, i);
      RanOn(s, s0, s1, a, i);
      if Group(i) > 1 {
        NotItsGroup(s1, a, m1, 1, i);
        RanOn(s, s1, s2, a, i);
      }
    }
  }

  lemma FoldTakes(s: State, a: Arrivals, must: bool, g: nat)
    requires Valid(s) && g < GROUPS
    ensures MaybeFolded(s, a, must, g).now == s.now + if must then First(g + 1) - First(g) + 1 else 0
  {
  }

  /** After it, too. */
  lemma AfterTurn(s: State, a: Arrivals, i: nat)
    requires Valid(s) && i < N
    ensures var s0 := Waited(s, a, N);
      var s1 := MaybeFolded(s0, a, MustFold(s, a, 0), 0);
      var s2 := MaybeFolded(s1, a, MustFold(s, a, 1), 1);
      && (Group(i) == 0 ==> Ran(s1, Folded(s, a), a, i))
      && (Group(i) == 1 ==> Ran(s2, Folded(s, a), a, i))
      && (Group(i) == 2 && !MustFold(s, a, 2) ==> Folded(s, a) == s2)
  {
    hide GroupFolded, Ran, MustFold;
    var m0, m1, m2 := MustFold(s, a, 0), MustFold(s, a, 1), MustFold(s, a, 2);
    var s0 := Waited(s, a, N);
    var s1 := MaybeFolded(s0, a, m0, 0);
    var s2 := MaybeFolded(s1, a, m1, 1);
    if Group(i) < 2 {
      NotItsGroup(s2, a, m2, 2, i);
      if Group(i) < 1 {
        NotItsGroup(s1, a, m1, 1, i);
        RanOn(s1, s2, Folded(s, a), a, i);
      }
    }
  }

  /** A fold seen from one counter: where its read and its clear fall in time. */
  lemma FoldOfCounter(s: State, a: Arrivals, i: nat)
    requires Valid(s) && i < N
    ensures SeenFrom(s, Folded(s, a), a, i)
  {
    var g := Group(i);
    if MustFold(s, a, g) { TurnOfCounter(s, a, i); } else { NoTurn(s, a, i); }
  }

  /** The state its group's turn starts from. */
  function TurnFrom(s: State, a: Arrivals, g: nat): (t: State)
    requires Valid(s) && g < GROUPS
    ensures Valid(t)
  {
    var s0 := Waited(s, a, N);
    if g == 0 then s0
    else
      var s1 := MaybeFolded(s0, a, MustFold(s, a, 0), 0);
      if g == 1 then s1 else MaybeFolded(s1, a, MustFold(s, a, 1), 1)
  }

  lemma TurnOfCounter(s: State, a: Arrivals, i: nat)
    requires Valid(s) && i < N && MustFold(s, a, Group(i))
    ensures SeenFrom(s, Folded(s, a), a, i)
  {
    hide MaybeFolded, GroupFolded, Ran, MustFold, Folded, TurnFrom, ClearAt, First, Sum, Saturate;
    var g := Group(i);
    var from, t := TurnFrom(s, a, g), Folded(s, a);
    TurnFacts(s, a, i);
    ItsGroup(s, from, t, a, g, i);
  }

  lemma TurnFacts(s: State, a: Arrivals, i: nat)
    requires Valid(s) && i < N && MustFold(s, a, Group(i))
    ensures var g := Group(i);
      && Ran(s, TurnFrom(s, a, g), a, i)
      && Ran(GroupFolded(TurnFrom(s, a, g), a, g), Folded(s, a), a, i)
      && TurnFrom(s, a, g).now + First(g + 1) - First(g) == s.now + ClearAt(s, a, g)
  {
    hide GroupFolded, Ran, MustFold;
    BeforeTurn(s, a, i);
    AfterTurn(s, a, i);
    RanNowhere(Folded(s, a), a, i);
  }

  lemma NoTurn(s: State, a: Arrivals, i: nat)
    requires Valid(s) && i < N && !MustFold(s, a, Group(i))
    ensures Ran(s, Folded(s, a), a, i)
  {
    hide GroupFolded, Ran, MustFold;
    var g := Group(i);
    BeforeTurn(s, a, i);
    AfterTurn(s, a, i);
    if g == 0 {
      RanOn(s, Waited(s, a, N), Folded(s, a), a, i);
    } else if g == 1 {
      RanOn(s, TurnFrom(s, a, 1), Folded(s, a), a, i);
    }
  }

  lemma RanNowhere(s: State, a: Arrivals, i: nat)
    requires Valid(s) && i < N
    ensures Ran(s, s, a, i)
  {
  }

  lemma WaitedRan(s: State, a: Arrivals, n: nat, i: nat)
    requires Valid(s) && i < N
    ensures Ran(s, Waited(s, a, n), a, i)
  {
  }

  // ------------------------------------------------------ never above, never back

  lemma CounterBelow(s: State, t: State, a: Arrivals, i: nat)
    requires Valid(s) && Valid(t) && i < N && SeenFrom(s, t, a, i)
    requires Total(s, i) <= Truth(s, a, i)
    ensures Total(s, i) <= Total(t, i) <= Truth(t, a, i)
  {
    hide ClearAt, MustFold, First;
    var g := Group(i);
    var clear := s.now + ClearAt(s, a, g);
    SumSplits(a, i, 0, s.now, t.now);
    if MustFold(s, a, g) {
      SumSplits(a, i, s.now, clear - (i - First(g)), t.now);
      SumSplits(a, i, clear - (i - First(g)), clear + 1, t.now);
    }
  }

  /** Through any fold, saturated counters included, no total passes the truth or goes
      back. */
  lemma FoldKeepsBelow(s: State, a: Arrivals)
    requires NeverAbove(s, a)
    ensures NeverAbove(Folded(s, a), a)
    ensures forall i :: 0 <= i < N ==> Total(s, i) <= Total(Folded(s, a), i)
  {
    var t := Folded(s, a);
    forall i | 0 <= i < N ensures Total(s, i) <= Total(t, i) <= Truth(t, a, i) {
      FoldOfCounter(s, a, i);
      CounterBelow(s, t, a, i);
    }
  }

  lemma WaitKeepsBelow(s: State, a: Arrivals, n: nat)
    requires NeverAbove(s, a)
    ensures NeverAbove(Waited(s, a, n), a)
    ensures forall i :: 0 <= i < N ==> Total(s, i) <= Total(Waited(s, a, n), i)
  {
    forall i | 0 <= i < N
      ensures Total(s, i) <= Total(Waited(s, a, n), i) <= Truth(Waited(s, a, n), a, i)
    {
      SumSplits(a, i, 0, s.now, s.now + n);
    }
  }

  // ------------------------------------------------------ exactly what is lost

  predicate Unsaturated(s: State, t: State, a: Arrivals, i: nat)
    requires Valid(s) && i < N
  {
    s.regs[i] + Sum(a, i, s.now, t.now) <= MAX
  }

  /** Without saturation a fold loses from a counter what arrives between its read and
      its group's clear, and nothing else; a counter whose group is not folded loses
      nothing and keeps its total. */
  lemma FoldLosesExactly(s: State, a: Arrivals, i: nat)
    requires Valid(s) && i < N && Unsaturated(s, Folded(s, a), a, i)
    ensures var t := Folded(s, a);
      && Total(t, i) + Lost(s, a, i) == Total(s, i) + Sum(a, i, s.now, t.now)
      && (!MustFold(s, a, Group(i)) ==> t.acc[i] == s.acc[i])
  {
    var t := Folded(s, a);
    FoldOfCounter(s, a, i);
    ExactOfCounter(s, t, a, i);
  }

  lemma {:induction false} SumBound(a: Arrivals, i: nat, x: nat, y: nat, each: nat)
    requires x <= y && forall t :: x <= t < y ==> a(t, i) <= each
    ensures Sum(a, i, x, y) <= each * (y - x)
    decreases y
  {
    if x < y {
      SumBound(a, i, x, y - 1, each);
      assert each * (y - x) == each * (y - 1 - x) + each;
    }
  }

  /** How much that is: the first counter of a group is read right before the clear and
      can lose one access's arrivals, each one after it in the table one access's more. */
  lemma LossBound(s: State, a: Arrivals, i: nat, each: nat)
    requires Valid(s) && i < N && forall t :: 0 <= t ==> a(t, i) <= each
    ensures Lost(s, a, i) <= each * (if i < 2 then i + 1 else if i < 19 then i - 1 else i - 18)
  {
    hide ClearAt, MustFold;
    var g := Group(i);
    var clear := s.now + ClearAt(s, a, g);
    if MustFold(s, a, g) {
      assert clear >= i - First(g) by { ClearLate(s, a, i); }
      SumBound(a, i, clear - (i - First(g)), clear + 1, each);
    }
  }

  lemma ClearLate(s: State, a: Arrivals, i: nat)
    requires Valid(s) && i < N
    ensures ClearAt(s, a, Group(i)) >= i - First(Group(i))
  {
    hide MustFold;
  }

  lemma ExactOfCounter(s: State, t: State, a: Arrivals, i: nat)
    requires Valid(s) && Valid(t) && i < N && SeenFrom(s, t, a, i) && Unsaturated(s, t, a, i)
    ensures Total(t, i) + Lost(s, a, i) == Total(s, i) + Sum(a, i, s.now, t.now)
    ensures !MustFold(s, a, Group(i)) ==> t.acc[i] == s.acc[i]
  {
    hide ClearAt, MustFold, First;
    var g := Group(i);
    var clear := s.now + ClearAt(s, a, g);
    if MustFold(s, a, g) {
      SumSplits(a, i, s.now, clear - (i - First(g)), t.now);
      SumSplits(a, i, clear - (i - First(g)), clear + 1, t.now);
    }
  }

  // ------------------------------------------------------ folds in time

  /** A counter is left below 2^31 but for what came during the fold. */
  lemma FoldLeavesRoom(s: State, a: Arrivals, i: nat)
    requires Valid(s) && i < N
    ensures var t := Folded(s, a);
      t.regs[i] < FOLD + Sum(a, i, s.now, t.now)
  {
    hide ClearAt, MustFold, First, Folded;
    var t := Folded(s, a);
    var g := Group(i);
    FoldOfCounter(s, a, i);
    if MustFold(s, a, g) {
      var clear := s.now + ClearAt(s, a, g);
      SumSplits(a, i, s.now, clear + 1, t.now);
    } else {
      ScanPassed(s, a, i);
      NotReached(s, t, a, i);
    }
  }

  lemma ScanPassed(s: State, a: Arrivals, i: nat)
    requires Valid(s) && i < N && !MustFold(s, a, Group(i))
    ensures Later(s, a, i + 1)[i] < FOLD
  {
    assert InGroup(i, Group(i));
  }

  lemma NotReached(s: State, t: State, a: Arrivals, i: nat)
    requires Valid(s) && Valid(t) && i < N && Ran(s, t, a, i)
    requires Later(s, a, i + 1)[i] < FOLD
    ensures t.regs[i] < FOLD + Sum(a, i, s.now, t.now)
  {
    assert s.regs[i] < FOLD;
  }

  /** A group none of whose counters reaches 2^31 by the end of the scan is left alone;
      one with a counter already there is folded, all of it. */
  lemma FoldsWhenDue(s: State, a: Arrivals, i: nat)
    requires Valid(s) && i < N
    ensures var t := Folded(s, a);
      && ((forall j :: 0 <= j < N && Group(j) == Group(i) ==>
             s.regs[j] + Sum(a, j, s.now, s.now + N) < 0x80000000) ==>
           t.acc[i] == s.acc[i] && t.regs[i] == Saturate(s.regs[i] + Sum(a, i, s.now, t.now)))
      && ((exists j :: 0 <= j < N && Group(j) == Group(i) && s.regs[j] >= 0x80000000) ==>
           t.acc[i] >= s.acc[i] + s.regs[i] && t.regs[i] <= Sum(a, i, s.now, t.now))
  {
    hide MustFold, Folded, Group, Sum, Saturate;
    FoldOfCounter(s, a, i);
    SeenGains(s, Folded(s, a), a, i);
    DueExactly(s, a, Group(i));
  }

  lemma SeenGains(s: State, t: State, a: Arrivals, i: nat)
    requires Valid(s) && Valid(t) && i < N && SeenFrom(s, t, a, i)
    ensures if MustFold(s, a, Group(i))
      then t.acc[i] >= s.acc[i] + s.regs[i] && t.regs[i] <= Sum(a, i, s.now, t.now)
      else t.acc[i] == s.acc[i] && t.regs[i] == Saturate(s.regs[i] + Sum(a, i, s.now, t.now))
  {
    hide ClearAt, MustFold, First, Group;
    if MustFold(s, a, Group(i)) {
      SumSplits(a, i, s.now, s.now + ClearAt(s, a, Group(i)) + 1, t.now);
    }
  }

  lemma DueExactly(s: State, a: Arrivals, g: nat)
    requires Valid(s) && g < GROUPS
    ensures (forall j :: 0 <= j < N && Group(j) == g ==> s.regs[j] + Sum(a, j, s.now, s.now + N) < 0x80000000)
      ==> !MustFold(s, a, g)
    ensures (exists j :: 0 <= j < N && Group(j) == g && s.regs[j] >= 0x80000000) ==> MustFold(s, a, g)
  {
    hide Group, First;
    if MustFold(s, a, g) {
      var j :| 0 <= j < N && InGroup(j, g) && Later(s, a, j + 1)[j] >= FOLD;
      SumSplits(a, j, s.now, s.now + j + 1, s.now + N);
      assert Group(j) == g;
    }
    if j :| 0 <= j < N && Group(j) == g && s.regs[j] >= 0x80000000 {
      assert Later(s, a, j + 1)[j] >= FOLD;
    }
  }

  /** The work's schedule: folds, with gaps[k] other accesses before the k-th. */
  function RunFolds(s: State, a: Arrivals, gaps: seq<nat>): (t: State)
    requires Valid(s)
    ensures Valid(t) && t.now >= s.now
    decreases |gaps|
  {
    if gaps == [] then s
    else
      RunFolds(Folded(Waited(s, a, gaps[0]), a), a, gaps[1..])
  }

  /** Between the start of each fold and the end of the next, fewer than 2^31 events of
      counter i come (and fewer than that before the first ends). */
  predicate InTime(s: State, a: Arrivals, gaps: seq<nat>, i: nat, came: nat)
    requires Valid(s)
    decreases |gaps|
  {
    gaps == [] ||
    (var s0 := Waited(s, a, gaps[0]);
     var t := Folded(s0, a);
     && came + Sum(a, i, s.now, t.now) < FOLD
     && InTime(t, a, gaps[1..], i, Sum(a, i, s0.now, t.now)))
  }

  /** What the folds of a run lose from counter i. */
  function LostIn(s: State, a: Arrivals, gaps: seq<nat>, i: nat): nat
    requires Valid(s) && i < N
    decreases |gaps|
  {
    if gaps == [] then 0
    else
      var s0 := Waited(s, a, gaps[0]);
      Lost(s0, a, i) + LostIn(Folded(s0, a), a, gaps[1..], i)
  }

  /** Folds in time never let a counter saturate, so over any run the true count is the
      total plus exactly what fell between a read and its clear. */
  lemma {:induction false} RunExact(s: State, a: Arrivals, gaps: seq<nat>, i: nat, came: nat)
    requires Valid(s) && i < N && s.regs[i] < FOLD + came && InTime(s, a, gaps, i, came)
    ensures var t := RunFolds(s, a, gaps);
      Total(t, i) + LostIn(s, a, gaps, i) == Total(s, i) + Sum(a, i, s.now, t.now)
    decreases |gaps|
  {
    hide Folded, Lost, Waited;
    if gaps != [] {
      var s0 := Waited(s, a, gaps[0]);
      var t := Folded(s0, a);
      WaitedRan(s, a, gaps[0], i);
      FoldMovesOn(s0, a);
      SumSplits(a, i, s.now, s0.now, t.now);
      FoldLosesExactly(s0, a, i);
      FoldLeavesRoom(s0, a, i);
      RunExact(t, a, gaps[1..], i, Sum(a, i, s0.now, t.now));
      SumSplits(a, i, s.now, t.now, RunFolds(t, a, gaps[1..]).now);
    }
  }

  lemma FoldMovesOn(s: State, a: Arrivals)
    requires Valid(s)
    ensures Folded(s, a).now >= s.now
  {
  }

  // ------------------------------------------------------ frames the MAC has sent

  /** A PAUSE frame is counted in PAUSE_TX no later than in TX_FRAME; while no PAUSE count
      is lost, the count reported never passes the data frames truly sent. */
  lemma ReportsLow(s: State, a: Arrivals, pauseSent: nat)
    requires NeverAbove(s, a)
    requires var t := Waited(s, a, 1);
      var u := Waited(t, a, 1);
      && pauseSent <= Truth(t, a, 20)
      && Total(u, 20) == Truth(u, a, 20)
    ensures MacFrames(s, a) <= Truth(Waited(s, a, 1), a, 0) - pauseSent
  {
    var t := Waited(s, a, 1);
    WaitKeepsBelow(s, a, 1);
    SumSplits(a, 20, 0, t.now, t.now + 1);
  }

  /** What is reported after any run of folds in time: the frames sent, less the PAUSE
      frames, since its start, but for what the folds lost of either. */
  lemma MacFramesExact(s: State, a: Arrivals, gaps: seq<nat>, came0: nat, came20: nat)
    requires Valid(s)
    requires s.regs[0] < FOLD + came0 && InTime(s, a, gaps, 0, came0)
    requires s.regs[20] < FOLD + came20 && InTime(s, a, gaps, 20, came20)
    requires var t := RunFolds(s, a, gaps);
      && t.regs[0] + Sum(a, 0, t.now, t.now + 1) <= MAX
      && t.regs[20] + Sum(a, 20, t.now, t.now + 2) <= MAX
    ensures var t := RunFolds(s, a, gaps);
      MacFrames(t, a) ==
        (Total(s, 0) + Sum(a, 0, s.now, t.now + 1) - LostIn(s, a, gaps, 0))
        - (Total(s, 20) + Sum(a, 20, s.now, t.now + 2) - LostIn(s, a, gaps, 20))
  {
    hide RunFolds, InTime, LostIn;
    var t := RunFolds(s, a, gaps);
    RunExact(s, a, gaps, 0, came0);
    RunExact(s, a, gaps, 20, came20);
    SumSplits(a, 0, s.now, t.now, t.now + 1);
    SumSplits(a, 20, s.now, t.now, t.now + 2);
    ReportOf(t, a);
  }

  lemma ReportOf(t: State, a: Arrivals)
    requires Valid(t)
    requires t.regs[0] + Sum(a, 0, t.now, t.now + 1) <= MAX && t.regs[20] + Sum(a, 20, t.now, t.now + 2) <= MAX
    ensures MacFrames(t, a) ==
      (Total(t, 0) + Sum(a, 0, t.now, t.now + 1)) - (Total(t, 20) + Sum(a, 20, t.now, t.now + 2))
  {
    SumSplits(a, 20, t.now, t.now + 1, t.now + 2);
  }

  /** A total never grows by more than what arrived: over a fold, ... */
  lemma FoldGrowsLow(s: State, a: Arrivals, i: nat)
    requires Valid(s) && i < N
    ensures var t := Folded(s, a);
      Total(t, i) - Total(s, i) <= Sum(a, i, s.now, t.now)
  {
    hide ClearAt, MustFold, First, Folded;
    var t := Folded(s, a);
    FoldOfCounter(s, a, i);
    SeenGrowsLow(s, t, a, i);
  }

  lemma SeenGrowsLow(s: State, t: State, a: Arrivals, i: nat)
    requires Valid(s) && Valid(t) && i < N && SeenFrom(s, t, a, i)
    ensures Total(t, i) - Total(s, i) <= Sum(a, i, s.now, t.now)
  {
    hide ClearAt, MustFold, First;
    var g := Group(i);
    var clear := s.now + ClearAt(s, a, g);
    if MustFold(s, a, g) {
      SumSplits(a, i, s.now, clear - (i - First(g)), t.now);
      SumSplits(a, i, clear - (i - First(g)), clear + 1, t.now);
    }
  }

  /** ... over any number of folds with reads before, between and after them. */
  lemma {:induction false} GrowsLow(s: State, a: Arrivals, gaps: seq<nat>, n: nat, i: nat)
    requires Valid(s) && i < N
    ensures var t := Waited(RunFolds(s, a, gaps), a, n);
      t.now >= s.now && Total(t, i) - Total(s, i) <= Sum(a, i, s.now, t.now)
    decreases |gaps|
  {
    hide Folded;
    if gaps != [] {
      var s0 := Waited(s, a, gaps[0]);
      var t := Folded(s0, a);
      FoldMovesOn(s0, a);
      FoldGrowsLow(s0, a, i);
      GrowsLow(t, a, gaps[1..], n, i);
      SumSplits(a, i, s.now, s0.now, t.now);
      SumSplits(a, i, s.now, t.now, Waited(RunFolds(t, a, gaps[1..]), a, n).now);
    }
  }

  /** The drain compares a count with a base read earlier, itself perhaps low.  Whatever
      folds fall before, between and after, while none of them loses a PAUSE count, the
      difference never passes the data frames sent since, by more than the PAUSE frames
      the MAC had taken at the base and not yet sent.  With none of those it is low. */
  lemma DifferenceLow(s: State, a: Arrivals, gaps: seq<nat>, n: nat, pauseSent: nat, pauseSent': nat)
    requires Valid(s)
    requires var t := Waited(s, a, 1);
      var u := Waited(t, a, 1);
      var s' := Waited(RunFolds(u, a, gaps), a, n);
      var t' := Waited(s', a, 1);
      var u' := Waited(t', a, 1);
      && pauseSent <= Truth(u, a, 20) && pauseSent' <= Truth(t', a, 20)
      && Total(u', 20) - Total(u, 20) == Sum(a, 20, u.now, u'.now)
    ensures var t := Waited(s, a, 1);
      var u := Waited(t, a, 1);
      var s' := Waited(RunFolds(u, a, gaps), a, n);
      var t' := Waited(s', a, 1);
      MacFrames(s', a) - MacFrames(s, a)
        <= (Sum(a, 0, t.now, t'.now) - (pauseSent' - pauseSent)) + (Truth(u, a, 20) - pauseSent)
  {
    hide RunFolds, Later;
    var t := Waited(s, a, 1);
    var u := Waited(t, a, 1);
    var s' := Waited(RunFolds(u, a, gaps), a, n);
    var t' := Waited(s', a, 1);
    var u' := Waited(t', a, 1);
    GrowsLow(t, a, [], 1, 0);
    GrowsLow(u, a, gaps, n, 0);
    GrowsLow(s', a, [], 1, 0);
    RunNone(t, a);
    RunNone(s', a);
    SumSplits(a, 0, t.now, u.now, s'.now);
    SumSplits(a, 0, t.now, s'.now, t'.now);
    SumSplits(a, 20, 0, u.now, u'.now);
    SumSplits(a, 20, 0, t'.now, u'.now);
  }

  lemma RunNone(s: State, a: Arrivals)
    requires Valid(s)
    ensures RunFolds(s, a, []) == s
  {
  }
}
