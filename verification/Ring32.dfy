/** A 64-slot ring addressed by free-running 32-bit indices, and 64-bit counters
    compared as signed 32-bit differences. */
module Ring32 {

  const SLOTS: nat := 64
  const TWO32: nat := 0x1_0000_0000
  const TWO64: nat := 0x1_0000_0000_0000_0000

  type U32 = x: int | 0 <= x < TWO32
  type U64 = x: int | 0 <= x < TWO64

  /** A count as a free-running 32-bit field holds it. */
  function Wrap(a: nat): U32 { if a < TWO32 then a else Wrap(a - TWO32) }

  lemma {:induction false} WrapMod(a: nat)
    ensures Wrap(a) == a % TWO32
  {
    if a >= TWO32 {
      WrapMod(a - TWO32);
      assert a % TWO32 == (a - TWO32) % TWO32;
    }
  }

  /** Unsigned 32-bit a - b. */
  function Sub32(a: int, b: int): U32 { (a - b) % TWO32 }

  function Inc32(a: U32): U32 { (a + 1) % TWO32 }

  function SlotOf(a: nat): nat { a % SLOTS }

  /** The n slots from index t on, wrapping at the ring's end. */
  function Window<T>(a: seq<T>, t: nat, n: nat): (w: seq<T>)
    requires |a| == SLOTS
    ensures |w| == n
    ensures forall k :: 0 <= k < n ==> w[k] == a[SlotOf(t + k)]
  {
    seq(n, k requires 0 <= k < n => a[SlotOf(t + k)])
  }

  /** The slot of a wrapped index is the slot of the full count. */
  lemma Slot32(a: nat)
    ensures SlotOf(Wrap(a)) == SlotOf(a)
  {
    WrapMod(a);
    var q := a / TWO32;
    assert a == SLOTS * (q * 0x400_0000) + a % TWO32;
  }

  /** A difference of counts less than 2^32 apart survives the wrap. */
  lemma Difference32(lo: nat, hi: nat)
    requires lo <= hi < lo + TWO32
    ensures Sub32(Wrap(hi), Wrap(lo)) == hi - lo
  {
    WrapMod(hi);
    WrapMod(lo);
    var p, q := hi / TWO32, lo / TWO32;
    assert hi % TWO32 - lo % TWO32 == (hi - lo) - (p - q) * TWO32;
    assert p - q == 0 || p - q == 1;
  }

  lemma Inc32Count(a: nat)
    ensures Inc32(Wrap(a)) == Wrap(a + 1)
  {
    WrapMod(a);
    WrapMod(a + 1);
  }

  /** Distinct places less than a ring apart are distinct slots. */
  lemma SlotsApart(t: nat, j: nat, k: nat)
    requires j < k < j + SLOTS
    ensures SlotOf(t + j) != SlotOf(t + k)
  {
  }

  /** Writing the k-th slot of the window writes the window's k-th element. */
  lemma WindowPut<T>(a: seq<T>, t: nat, n: nat, k: nat, v: T)
    requires |a| == SLOTS && k < n <= SLOTS
    ensures Window(a[SlotOf(t + k) := v], t, n) == Window(a, t, n)[k := v]
  {
    var w := Window(a[SlotOf(t + k) := v], t, n);
    forall j | 0 <= j < n ensures w[j] == Window(a, t, n)[k := v][j] {
      if j == k {} else if j < k { SlotsApart(t, j, k); } else { SlotsApart(t, k, j); }
    }
  }

  /** Writing the slot just past a window that is not full leaves it as it was. */
  lemma WindowPast<T>(a: seq<T>, t: nat, n: nat, v: T)
    requires |a| == SLOTS && n < SLOTS
    ensures Window(a[SlotOf(t + n) := v], t, n) == Window(a, t, n)
  {
    var w := Window(a[SlotOf(t + n) := v], t, n);
    forall j | 0 <= j < n ensures w[j] == Window(a, t, n)[j] { SlotsApart(t, j, n); }
  }

  lemma WindowGrow<T>(a: seq<T>, t: nat, n: nat)
    requires |a| == SLOTS
    ensures Window(a, t, n + 1) == Window(a, t, n) + [a[SlotOf(t + n)]]
  {
  }

  lemma WindowDrop<T>(a: seq<T>, t: nat, n: nat, p: nat)
    requires |a| == SLOTS && p <= n
    ensures Window(a, t, n)[p..] == Window(a, t + p, n - p)
  {
    assert forall k :: 0 <= k < n - p ==> Window(a, t, n)[p..][k] == a[SlotOf(t + (p + k))];
  }

  /** The driver's test that the MAC's count, less its base, is short of sent:
      the 64-bit difference cut to 32 bits, compared as a signed number. */
  predicate Short(frames: U64, base: U64, sent: U32) {
    Sub32((frames - base) % TWO64 % TWO32, sent) >= 0x8000_0000
  }

  lemma Cut64(base: U64, r: nat)
    ensures ((base + r) % TWO64 - base) % TWO64 % TWO32 == r % TWO32
  {
    var q := (base + r) / TWO64;
    assert (base + r) % TWO64 - base == r - q * TWO64;
    Multiple64(r, q);
    Nested(r);
  }

  lemma Multiple64(r: nat, q: nat)
    requires r + TWO64 >= q * TWO64
    ensures (r - q * TWO64) % TWO64 == r % TWO64
  {
    if q > 0 {
      if q > 1 || r >= TWO64 { Multiple64(r, q - 1); }
    }
  }

  lemma Nested(r: nat)
    ensures r % TWO64 % TWO32 == r % TWO32
  {
    var q := r / TWO64;
    assert r == q * TWO64 + r % TWO64;
    assert q * TWO64 == (q * TWO32) * TWO32;
  }

  /** Against any truth the reported count does not exceed, the test says short
      exactly when the shortfall, modulo 2^32, is between 1 and 2^31. */
  lemma ShortExact(base: U64, reported: nat, truth: nat)
    requires reported <= truth
    ensures Short((base + reported) % TWO64, base, Wrap(truth))
      <==> 1 <= (truth - reported) % TWO32 <= 0x8000_0000
  {
    WrapMod(truth);
    Cut64(base, reported);
    var d := (truth - reported) % TWO32;
    DifferenceMod(reported, truth);
  }

  lemma DifferenceMod(r: nat, t: nat)
    ensures Sub32(r % TWO32, t % TWO32) == (r - t) % TWO32
    ensures (r - t) % TWO32 == (if (t - r) % TWO32 == 0 then 0 else TWO32 - (t - r) % TWO32)
  {
    var p, q := r / TWO32, t / TWO32;
    assert r - t == (p - q) * TWO32 + (r % TWO32 - t % TWO32);
  }
}
