/** The bit operations behind the ring sizes: `pow_2_size` and masking, over natural numbers below 2^64. */
module BitTricks {
  const WORD: nat := 0x1_0000_0000_0000_0000

  function Pow2(k: nat): (r: nat)
    ensures r > 0
  {
    if k == 0 then 1 else 2 * Pow2(k - 1)
  }

  /** `k` ones. */
  function Ones(k: nat): nat { Pow2(k) - 1 }

  function Shr(x: nat, k: nat): nat
    decreases k
  {
    if k == 0 then x else Shr(x / 2, k - 1)
  }

  function BitOr(x: nat, y: nat): nat
    decreases x + y
  {
    if x == 0 then y else if y == 0 then x
    else 2 * BitOr(x / 2, y / 2) + if x % 2 == 1 || y % 2 == 1 then 1 else 0
  }

  function BitAnd(x: nat, y: nat): nat
    decreases x
  {
    if x == 0 || y == 0 then 0
    else 2 * BitAnd(x / 2, y / 2) + if x % 2 == 1 && y % 2 == 1 then 1 else 0
  }

  // ---------------------------------------------------------------- masking

  lemma {:induction false} MaskKeeps(x: nat, k: nat)
    requires x < Pow2(k)
    ensures BitAnd(x, Ones(k)) == x
    decreases k
  {
    if x > 0 {
      MaskKeeps(x / 2, k - 1);
    }
  }

  lemma {:induction false} MaskClears(k: nat)
    ensures BitAnd(Pow2(k), Ones(k)) == 0
    decreases k
  {
    if k > 0 {
      MaskClears(k - 1);
    }
  }

  /** Masking the successor of an offset wraps it around the ring. */
  lemma {:induction false} MaskWraps(x: nat, k: nat)
    requires x < Pow2(k)
    ensures BitAnd(x + 1, Ones(k)) == if x + 1 == Pow2(k) then 0 else x + 1
  {
    if x + 1 == Pow2(k) {
      MaskClears(k);
    } else {
      MaskKeeps(x + 1, k);
    }
  }

  // ---------------------------------------------------------------- smearing bits downwards

  lemma {:induction false} ShrAdd(x: nat, a: nat, b: nat)
    ensures Shr(x, a + b) == Shr(Shr(x, a), b)
    decreases a
  {
    if a > 0 {
      ShrAdd(x / 2, a - 1, b);
    }
  }

  lemma {:induction false} ShrPositive(x: nat, k: nat)
    ensures Shr(x, k) > 0 <==> x >= Pow2(k)
    decreases k
  {
    if k > 0 {
      ShrPositive(x / 2, k - 1);
    }
  }

  lemma {:induction false} ShrOr(x: nat, y: nat, k: nat)
    ensures Shr(BitOr(x, y), k) == BitOr(Shr(x, k), Shr(y, k))
    decreases k
  {
    if k > 0 {
      assert BitOr(x, y) / 2 == BitOr(x / 2, y / 2);
      ShrOr(x / 2, y / 2, k - 1);
    }
  }

  lemma {:induction false} OrFacts(x: nat, y: nat)
    ensures BitOr(x, y) % 2 == 1 <==> x % 2 == 1 || y % 2 == 1
    ensures BitOr(x, y) == 0 <==> x == 0 && y == 0
    decreases x
  {
    if x > 0 && y > 0 {
      OrFacts(x / 2, y / 2);
    }
  }

  /** The `n` lowest bits are zero. */
  predicate Quiet(x: nat, n: nat)
    decreases n
  {
    n == 0 || (x % 2 == 0 && Quiet(x / 2, n - 1))
  }

  lemma {:induction false} QuietSplit(x: nat, a: nat, b: nat)
    ensures Quiet(x, a + b) <==> Quiet(x, a) && Quiet(Shr(x, a), b)
    decreases a
  {
    if a > 0 {
      QuietSplit(x / 2, a - 1, b);
    }
  }

  lemma {:induction false} QuietIsBig(x: nat, n: nat)
    requires Quiet(x, n) && x > 0
    ensures x >= Pow2(n)
    decreases n
  {
    if n > 0 {
      QuietIsBig(x / 2, n - 1);
    }
  }

  /** `r` rounds of shifting down by 1, 2, 4, ... and or-ing. */
  function Smeared(x: nat, r: nat): nat
    decreases r
  {
    if r == 0 then x
    else
      var y := Smeared(x, r - 1);
      BitOr(y, Shr(y, Pow2(r - 1)))
  }

  lemma {:induction false} SmearedShr(x: nat, r: nat, k: nat)
    ensures Smeared(Shr(x, k), r) == Shr(Smeared(x, r), k)
    decreases r
  {
    hide Shr, BitOr;
    if r > 0 {
      var y, p := Smeared(x, r - 1), Pow2(r - 1);
      SmearedShr(x, r - 1, k);
      ShrAdd(y, k, p);
      ShrAdd(y, p, k);
      ShrOr(y, Shr(y, p), k);
    }
  }

  /** After `r` rounds the lowest bit is set exactly if one of the 2^r lowest bits was; zero stays zero. */
  lemma {:induction false} SmearedLow(x: nat, r: nat)
    ensures Smeared(x, r) % 2 == 1 <==> !Quiet(x, Pow2(r))
    ensures Smeared(x, r) == 0 <==> x == 0
    decreases r
  {
    hide Shr, BitOr;
    if r == 0 {
      assert Quiet(x / 2, 0);
    } else {
      var y, p := Smeared(x, r - 1), Pow2(r - 1);
      SmearedLow(x, r - 1);
      SmearedLow(Shr(x, p), r - 1);
      SmearedShr(x, r - 1, p);
      OrFacts(y, Shr(y, p));
      QuietSplit(x, p, p);
      ShrPositive(x, p);
    }
  }

  /** Every bit below the top one is set. */
  ghost predicate Solid(x: nat) { forall i: nat :: Shr(x, i) > 0 ==> Shr(x, i) % 2 == 1 }

  /** Below the top bit there are never 32 zero bits in a row. */
  ghost predicate NoGap(x: nat) { forall i: nat :: Shr(x, i) > 0 ==> !Quiet(Shr(x, i), 32) }

  lemma {:induction false} SolidIsOnes(x: nat) returns (m: nat)
    requires Solid(x)
    ensures x == Ones(m)
    decreases x
  {
    if x == 0 {
      m := 0;
    } else {
      assert Shr(x, 0) % 2 == 1;
      forall i: nat | Shr(x / 2, i) > 0
        ensures Shr(x / 2, i) % 2 == 1
      {
        assert Shr(x, i + 1) == Shr(x / 2, i);
      }
      m := SolidIsOnes(x / 2);
      m := m + 1;
    }
  }

  lemma {:induction false} OnesOdd(m: nat, i: nat)
    ensures Shr(Ones(m), i) > 0 ==> Shr(Ones(m), i) % 2 == 1
    decreases i
  {
    if i > 0 && m > 0 {
      assert Ones(m) / 2 == Ones(m - 1);
      OnesOdd(m - 1, i - 1);
    } else if m == 0 {
      ShrPositive(0, i);
    }
  }

  /** The five rounds of `pow_2_size` fill a number up to its top bit exactly if it has no gap. */
  lemma {:induction false} FiveRounds(x: nat)
    ensures Solid(Smeared(x, 5)) <==> NoGap(x)
    ensures forall i: nat :: Shr(Smeared(x, 5), i) > 0 <==> Shr(x, i) > 0
  {
    hide Shr, Smeared, Quiet, Pow2;
    forall i: nat
      ensures Shr(Smeared(x, 5), i) > 0 <==> Shr(x, i) > 0
      ensures Shr(Smeared(x, 5), i) % 2 == 1 <==> !Quiet(Shr(x, i), 32)
    {
      SmearedShr(x, 5, i);
      SmearedLow(Shr(x, i), 5);
      Pow2Small();
    }
  }

  lemma Pow2Small()
    ensures Pow2(5) == 32
  {
    assert Pow2(3) == 8;
  }

  // ---------------------------------------------------------------- the size of a ring

  lemma {:induction false} PowMonotone(a: nat, b: nat)
    requires a <= b
    ensures Pow2(a) <= Pow2(b)
    decreases b
  {
    if a < b {
      PowMonotone(a, b - 1);
    }
  }

  /** The least power of two that is not below `v`. */
  ghost predicate LeastPowerAtLeast(r: nat, v: nat) {
    && v <= r
    && (exists k: nat :: r == Pow2(k))
    && forall k: nat :: v <= Pow2(k) ==> r <= Pow2(k)
  }

  /** Without wrap-around the five rounds give the least power of two exactly on sizes without a gap. */
  lemma {:induction false} LeastPowerExactly(v: nat)
    requires v >= 1
    ensures LeastPowerAtLeast(Smeared(v - 1, 5) + 1, v) <==> NoGap(v - 1)
  {
    hide Shr, Smeared, Quiet, Pow2, Solid, NoGap;
    var x, z := v - 1, Smeared(v - 1, 5);
    FiveRounds(x);
    if NoGap(x) {
      var m := SolidIsOnes(z);
      OnesBounds(x, z, m);
    }
    if LeastPowerAtLeast(z + 1, v) {
      var k: nat :| z + 1 == Pow2(k);
      OnesSolid(k);
    }
  }

  lemma {:induction false} OnesSolid(m: nat)
    ensures Solid(Ones(m))
  {
    forall i: nat
      ensures Shr(Ones(m), i) > 0 ==> Shr(Ones(m), i) % 2 == 1
    {
      OnesOdd(m, i);
    }
  }

  lemma {:induction false} OnesBounds(x: nat, z: nat, m: nat)
    requires z == Ones(m) && forall i: nat :: Shr(z, i) > 0 <==> Shr(x, i) > 0
    ensures LeastPowerAtLeast(z + 1, x + 1)
  {
    hide Shr;
    ShrPositive(x, m);
    ShrPositive(z, m);
    if m > 0 {
      ShrPositive(x, m - 1);
      ShrPositive(z, m - 1);
    }
    forall k: nat | x + 1 <= Pow2(k)
      ensures z + 1 <= Pow2(k)
    {
      if k < m {
        PowMonotone(k, m - 1);
      }
      PowMonotone(m, if k < m then m else k);
    }
  }

  lemma {:induction false} SmallHasNoGap(x: nat)
    requires x < Pow2(32)
    ensures NoGap(x)
  {
    hide Shr, Quiet, Pow2;
    forall i: nat | Shr(x, i) > 0
      ensures !Quiet(Shr(x, i), 32)
    {
      ShrShrinks(x, i);
      if Quiet(Shr(x, i), 32) {
        QuietIsBig(Shr(x, i), 32);
        assert false;
      }
    }
  }

  lemma {:induction false} ShrShrinks(x: nat, k: nat)
    ensures Shr(x, k) <= x
    decreases k
  {
    if k > 0 {
      ShrShrinks(x / 2, k - 1);
    }
  }

  /** The condition holds for every size up to 2^32, and the next one is the first to fail. */
  lemma {:induction false} SizeIsLeastPower(v: nat)
    requires 1 <= v <= Pow2(32) + 1
    ensures LeastPowerAtLeast(Smeared(v - 1, 5) + 1, v) <==> v <= Pow2(32)
  {
    hide Smeared, NoGap, Pow2, LeastPowerAtLeast;
    LeastPowerExactly(v);
    if v <= Pow2(32) {
      SmallHasNoGap(v - 1);
    } else {
      PowerQuiet(32);
      GapAtZero(Pow2(32));
    }
  }

  lemma {:induction false} GapAtZero(x: nat)
    requires x > 0 && Quiet(x, 32)
    ensures !NoGap(x)
  {
    hide Quiet;
    assert Shr(x, 0) == x;
  }

  lemma {:induction false} PowerQuiet(n: nat)
    ensures Quiet(Pow2(n), n)
    decreases n
  {
    if n > 0 {
      PowerQuiet(n - 1);
      Doubled(Pow2(n - 1));
    }
  }

  lemma {:induction false} Doubled(p: nat)
    ensures 2 * p / 2 == p && 2 * p % 2 == 0
  {
  }

  lemma Pow2Words()
    ensures Pow2(32) == 0x1_0000_0000 && Pow2(64) == 2 * Pow2(63) == WORD
  {
    assert Pow2(8) == 0x100;
    assert Pow2(16) == 0x1_0000;
    assert Pow2(24) == 0x100_0000;
    assert Pow2(32) == 0x1_0000_0000;
    assert Pow2(40) == 0x100_0000_0000;
    assert Pow2(48) == 0x1_0000_0000_0000;
    assert Pow2(56) == 0x100_0000_0000_0000;
  }

  /**
   * `pow_2_size` on 64-bit words, the decrement of zero and the increment of all ones wrapping around. The shift by 32
   * is missing, so the result is the least power of two exactly if `size - 1` has no 32 zero bits in a row below its
   * top bit; and no word holds a power of two from 2^63 + 1 on.
   */
  method PowerOfTwoSize(size: nat) returns (r: nat)
    requires size < WORD
    ensures LeastPowerAtLeast(r, size) <==> 1 <= size <= Pow2(63) && NoGap(size - 1)
    ensures 1 <= size <= Pow2(32) ==> LeastPowerAtLeast(r, size)
  {
    hide BitOr, Shr, Pow2, Smeared, NoGap, LeastPowerAtLeast;
    var value := if size == 0 then WORD - 1 else size - 1;
    ghost var x := value;
    value := BitOr(value, Shr(value, 1));
    value := BitOr(value, Shr(value, 2));
    value := BitOr(value, Shr(value, 4));
    value := BitOr(value, Shr(value, 8));
    value := BitOr(value, Shr(value, 16));
    r := (value + 1) % WORD;
    FiveShifts(x);
    WrappedSize(x, size);
    if 1 <= size <= Pow2(32) {
      SmallHasNoGap(size - 1);
      PowMonotone(32, 63);
    }
  }

  lemma {:induction false} FiveShifts(x: nat)
    ensures var a := BitOr(x, Shr(x, 1)); var b := BitOr(a, Shr(a, 2)); var c := BitOr(b, Shr(b, 4));
      var d := BitOr(c, Shr(c, 8));
      BitOr(d, Shr(d, 16)) == Smeared(x, 5)
  {
    hide BitOr, Shr;
    assert Smeared(x, 0) == x && Pow2(0) == 1 && Pow2(1) == 2 && Pow2(2) == 4 && Pow2(3) == 8 && Pow2(4) == 16;
    assert Smeared(x, 1) == BitOr(x, Shr(x, 1));
    var b := Smeared(x, 2);
    assert b == BitOr(Smeared(x, 1), Shr(Smeared(x, 1), 2));
    var c := Smeared(x, 3);
    assert c == BitOr(b, Shr(b, 4));
    var d := Smeared(x, 4);
    assert d == BitOr(c, Shr(c, 8));
  }

  lemma {:induction false} WrappedSize(x: nat, size: nat)
    requires size < WORD && x == if size == 0 then WORD - 1 else size - 1
    ensures LeastPowerAtLeast((Smeared(x, 5) + 1) % WORD, size) <==> 1 <= size <= Pow2(63) && NoGap(size - 1)
  {
    hide Shr, Smeared, NoGap, Pow2, Solid;
    var z := Smeared(x, 5);
    Pow2Words();
    LeastPowerExactly(x + 1);
    FiveRounds(x);
    ShrPositive(x, 64);
    ShrPositive(z, 64);
    if z + 1 < WORD {
      if size == 0 {
        OnesSolid(64);
        SolidHasNoGap(x);
        assert false;
      } else if size > Pow2(63) && LeastPowerAtLeast(z + 1, size) {
        var k: nat :| z + 1 == Pow2(k);
        PowMonotone(if k < 64 then k else 64, if k < 64 then 63 else k);
        assert false;
      }
    }
  }

  lemma {:induction false} SolidHasNoGap(x: nat)
    requires Solid(x)
    ensures NoGap(x)
  {
  }
}
