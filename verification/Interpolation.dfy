/** Table interpolation of arm_math.h for 16-bit and 8-bit samples, at a position with 20 fraction
    bits. */
module Interpolation {
  import opened Words
  import Saturation

  const TWO_20: int := 0x10_0000
  const FRACTION: int := 0xF_FFFF

  // A table of up to 2^31 samples of so many bits.
  predicate IsTable(t: seq<int>, bits: nat)
    requires bits > 0
  {
    && 1 <= |t| <= TWO_31
    && forall i :: 0 <= i < |t| ==> -Saturation.Limit(bits) <= t[i] < Saturation.Limit(bits)
  }

  predicate NonDecreasing(t: seq<int>) {
    forall i, j :: 0 <= i <= j < |t| ==> t[i] <= t[j]
  }

  function Last(t: seq<int>): int
    requires t != []
  {
    t[|t| - 1]
  }

  /** arm_linear_interp_q15: the mask is unsigned, so the index never is negative. */
  function Interp15(t: seq<int>, x: int): int
    requires IsTable(t, 16) && IsInt32(x)
  {
    var index: int := And(x % TWO_32, 0xFFF0_0000) / TWO_20;
    if index >= |t| - 1 then Last(t)
    else if index < 0 then t[0]
    else Blend15(t[index], t[index + 1], And(x % TWO_32, 0xF_FFFF))
  }

  function Blend15(y0: int, y1: int, fract: int): int {
    var y := Wrap64(y0 * (FRACTION - fract));
    Saturation.Wrap16(Wrap64(y + y1 * fract) / TWO_20)
  }

  /** arm_linear_interp_q7. */
  function Interp7(t: seq<int>, x: int): int
    requires IsTable(t, 8) && IsInt32(x)
  {
    if x < 0 then t[0]
    else
      var index: int := And(x / TWO_20, 0xFFF);
      if index >= |t| - 1 then Last(t)
      else Blend7(t[index], t[index + 1], And(x, 0xF_FFFF))
  }

  function Blend7(y0: int, y1: int, fract: int): int {
    var y := Wrap32(y0 * (FRACTION - fract));
    Saturation.Wrap8(Wrap32(y + y1 * fract) / TWO_20)
  }

  // ---------- Positions ----------

  // The two neighbours weighted, the weights adding up to 2^20 - 1, and scaled back.
  function Blend(y0: int, y1: int, f: int): int {
    (y0 * (FRACTION - f) + y1 * f) / TWO_20
  }

  /** The table at segment i, fraction f: what both routines compute. */
  function Lookup(t: seq<int>, i: nat, f: nat): int
    requires t != []
  {
    if i >= |t| - 1 then Last(t) else Blend(t[i], t[i + 1], f)
  }

  lemma MaskedPosition(u: nat)
    requires IsUint32(u)
    ensures And(u, 0xFFF0_0000) / TWO_20 == u / TWO_20 && And(u, 0xF_FFFF) == u % TWO_20
  {
    assert Pow2(12) == 0x1000 && Pow2(20) == TWO_20 && Pow2(32) == TWO_32 by {
      PowersOfTwo();
      Pow2Adds(8, 4);
      Pow2Adds(16, 4);
    }
    AndHigh(u / TWO_20, u % TWO_20, 20, 32);
    AndOnes(u, 20);
  }

  lemma MaskedIndex(i: nat)
    requires i < 0x1000
    ensures And(i, 0xFFF) == i
  {
    assert Pow2(12) == 0x1000 by {
      Pow2Adds(8, 4);
      PowersOfTwo();
    }
    AndOnes(i, 12);
    SmallMod(i, 0x1000);
  }

  // The weighted sum lies between its two ends.
  lemma SumBetween(y0: int, y1: int, f: int, low: int, high: int)
    requires low <= y0 <= high && low <= y1 <= high && 0 <= f <= FRACTION
    ensures low * FRACTION <= y0 * (FRACTION - f) + y1 * f <= high * FRACTION
  {
    ProductMonotone(low, y0, FRACTION - f);
    ProductMonotone(y0, high, FRACTION - f);
    ProductMonotone(low, y1, f);
    ProductMonotone(y1, high, f);
    assert low * (FRACTION - f) + low * f == low * FRACTION;
    assert high * (FRACTION - f) + high * f == high * FRACTION;
  }

  // Neither product nor their sum overflows for samples of up to 16 (or 8) bits.
  lemma NothingWraps(y0: int, y1: int, f: int, limit: int)
    requires 0 < limit && -limit <= y0 < limit && -limit <= y1 < limit && 0 <= f <= FRACTION
    ensures -limit * TWO_20 <= y0 * (FRACTION - f) <= limit * TWO_20
    ensures -limit * TWO_20 <= y0 * (FRACTION - f) + y1 * f <= limit * TWO_20
    ensures limit <= 0x8000 ==> -limit <= Blend(y0, y1, f) < limit
  {
    SumBetween(y0, y1, f, -limit, limit - 1);
    SumBetween(y0, 0, f, -limit, limit - 1);
    assert -limit * TWO_20 <= -limit * FRACTION && (limit - 1) * FRACTION <= (limit - 1) * TWO_20;
  }

  lemma Blend15Value(y0: int, y1: int, f: int)
    requires -0x8000 <= y0 < 0x8000 && -0x8000 <= y1 < 0x8000 && 0 <= f <= FRACTION
    ensures Blend15(y0, y1, f) == Blend(y0, y1, f)
  {
    NothingWraps(y0, y1, f, 0x8000);
  }

  lemma Blend7Value(y0: int, y1: int, f: int)
    requires -0x80 <= y0 < 0x80 && -0x80 <= y1 < 0x80 && 0 <= f <= FRACTION
    ensures Blend7(y0, y1, f) == Blend(y0, y1, f)
  {
    NothingWraps(y0, y1, f, 0x80);
  }

  lemma Interp15Value(t: seq<int>, x: int, u: nat)
    requires IsTable(t, 16) && IsInt32(x) && u == x % TWO_32
    ensures Interp15(t, x) == Lookup(t, u / TWO_20, u % TWO_20)
  {
    MaskedPosition(u);
    Saturation.SmallLimits();
    if u / TWO_20 < |t| - 1 { Blend15Value(t[u / TWO_20], t[u / TWO_20 + 1], u % TWO_20); }
  }

  lemma Interp15Forward(t: seq<int>, x: int)
    requires IsTable(t, 16) && IsInt32(x) && x >= 0
    ensures Interp15(t, x) == Lookup(t, x / TWO_20, x % TWO_20)
  {
    SmallMod(x, TWO_32);
    Interp15Value(t, x, x);
  }

  lemma Interp7Forward(t: seq<int>, x: int)
    requires IsTable(t, 8) && IsInt32(x) && x >= 0
    ensures Interp7(t, x) == Lookup(t, x / TWO_20, x % TWO_20)
  {
    MaskedPosition(x);
    MaskedIndex(x / TWO_20);
    Saturation.SmallLimits();
    if x / TWO_20 < |t| - 1 { Blend7Value(t[x / TWO_20], t[x / TWO_20 + 1], x % TWO_20); }
  }

  // ---------- Accuracy ----------

  function Min(a: int, b: int): int {
    if a < b then a else b
  }

  function Max(a: int, b: int): int {
    if a < b then b else a
  }

  /** r is a fair value of the table at segment i, fraction f: between the two neighbours, up to
      one below; within the distance below of the straight line through them, all times 2^20 (the
      weights fall short of one by 2^-20, which costs y0, and the division truncates); and at a
      sample the table's own value, less one if it is positive. */
  predicate Interpolates(t: seq<int>, i: nat, f: nat, r: int)
    requires i + 1 < |t|
  {
    var y0, y1 := t[i], t[i + 1];
    && Min(y0, y1) - 1 <= r <= Max(y0, y1)
    && 0 <= y0 * TWO_20 + (y1 - y0) * f - y0 - TWO_20 * r < TWO_20
    && (f == 0 ==> r == if y0 > 0 then y0 - 1 else y0)
  }

  lemma BlendInterpolates(t: seq<int>, i: nat, f: nat)
    requires IsTable(t, 16) && i + 1 < |t| && f <= FRACTION
    ensures Interpolates(t, i, f, Blend(t[i], t[i + 1], f))
  {
    Saturation.SmallLimits();
    var y0, y1 := t[i], t[i + 1];
    SumBetween(y0, y1, f, Min(y0, y1), Max(y0, y1));
    assert y0 * (FRACTION - f) + y1 * f == y0 * TWO_20 + (y1 - y0) * f - y0;
    if f == 0 { assert y1 * f == 0; }
  }

  /** Every position before the last sample is interpolated, every later one gives the last sample. */
  lemma Interp15Accurate(t: seq<int>, x: int)
    requires IsTable(t, 16) && IsInt32(x) && x >= 0
    ensures x / TWO_20 + 1 < |t| ==> Interpolates(t, x / TWO_20, x % TWO_20, Interp15(t, x))
    ensures x / TWO_20 + 1 >= |t| ==> Interp15(t, x) == Last(t)
  {
    Interp15Forward(t, x);
    if x / TWO_20 + 1 < |t| { BlendInterpolates(t, x / TWO_20, x % TWO_20); }
  }

  lemma Interp7Accurate(t: seq<int>, x: int)
    requires IsTable(t, 8) && IsInt32(x)
    ensures x >= 0 && x / TWO_20 + 1 < |t| ==> Interpolates(t, x / TWO_20, x % TWO_20, Interp7(t, x))
    ensures x >= 0 && x / TWO_20 + 1 >= |t| ==> Interp7(t, x) == Last(t)
    ensures x < 0 ==> Interp7(t, x) == t[0]
  {
    if x >= 0 {
      Interp7Forward(t, x);
      NarrowTable(t);
      if x / TWO_20 + 1 < |t| { BlendInterpolates(t, x / TWO_20, x % TWO_20); }
    }
  }

  // ---------- Monotonicity ----------

  lemma BlendGrows(y0: int, y1: int, f: int, g: int)
    requires y0 <= y1 && f <= g
    ensures Blend(y0, y1, f) <= Blend(y0, y1, g)
  {
    ProductMonotone(f, g, y1 - y0);
    assert y0 * (FRACTION - f) + y1 * f == y0 * FRACTION + f * (y1 - y0);
    assert y0 * (FRACTION - g) + y1 * g == y0 * FRACTION + g * (y1 - y0);
  }

  lemma LookupGrows(t: seq<int>, i: nat, f: nat, j: nat, g: nat)
    requires IsTable(t, 16) && NonDecreasing(t) && f < TWO_20 && g < TWO_20
    requires i < j || (i == j && f <= g)
    ensures Lookup(t, i, f) <= Lookup(t, j, g)
  {
    Saturation.SmallLimits();
    if i == j {
      if i < |t| - 1 { BlendGrows(t[i], t[i + 1], f, g); }
    } else if i < |t| - 1 {
      SumBetween(t[i], t[i + 1], f, t[i], t[i + 1]);
      if j < |t| - 1 {
        SumBetween(t[j], t[j + 1], g, t[j], t[j + 1]);
        ProductMonotone(t[i + 1], t[j], FRACTION);
      }
    }
  }

  lemma PositionOrder(x: int, z: int)
    requires 0 <= x <= z
    ensures x / TWO_20 < z / TWO_20 || (x / TWO_20 == z / TWO_20 && x % TWO_20 <= z % TWO_20)
  {
  }

  lemma NarrowTable(t: seq<int>)
    requires IsTable(t, 8)
    ensures IsTable(t, 16)
  {
    Saturation.SmallLimits();
  }

  /** A non-decreasing table gives a non-decreasing function over all positions from zero on, across
      the segments and into the constant end. */
  lemma Interp15Monotone(t: seq<int>, x: int, z: int)
    requires IsTable(t, 16) && NonDecreasing(t)
    requires 0 <= x <= z && IsInt32(z)
    ensures Interp15(t, x) <= Interp15(t, z)
  {
    assert Lookup(t, x / TWO_20, x % TWO_20) <= Lookup(t, z / TWO_20, z % TWO_20) by {
      PositionOrder(x, z);
      LookupGrows(t, x / TWO_20, x % TWO_20, z / TWO_20, z % TWO_20);
    }
    Interp15Forward(t, x);
    Interp15Forward(t, z);
  }

  /** The 16-bit routine takes a negative position for one at or beyond entry 2048: its branch for
      negative indices is dead, and a table of up to 2049 samples gives its last sample, not its
      first. */
  lemma Interp15Negative(t: seq<int>, x: int)
    requires IsTable(t, 16) && IsInt32(x) && x < 0
    ensures Interp15(t, x) == Lookup(t, 0x1000 + x / TWO_20, x % TWO_20)
    ensures |t| <= 2049 ==> Interp15(t, x) == Last(t)
  {
    DivModUnique(x + TWO_32, TWO_20, 0x1000 + x / TWO_20, x % TWO_20);
    SmallMod(x + TWO_32, TWO_32);
    Interp15Value(t, x, x + TWO_32);
  }

  // ---------- Monotonicity over all positions ----------

  ghost predicate Monotone15(t: seq<int>)
    requires IsTable(t, 16)
  {
    forall x, z :: IsInt32(x) && IsInt32(z) && x <= z ==> Interp15(t, x) <= Interp15(t, z)
  }

  ghost predicate Monotone7(t: seq<int>)
    requires IsTable(t, 8)
  {
    forall x, z :: IsInt32(x) && IsInt32(z) && x <= z ==> Interp7(t, x) <= Interp7(t, z)
  }

  lemma NegativeOrder(x: int, z: int)
    requires x <= z < 0
    ensures x / TWO_20 < z / TWO_20 || (x / TWO_20 == z / TWO_20 && x % TWO_20 <= z % TWO_20)
  {
  }

  // On either side of zero the 16-bit routine is monotone.
  lemma Interp15SameSide(t: seq<int>, x: int, z: int)
    requires IsTable(t, 16) && NonDecreasing(t)
    requires IsInt32(x) && IsInt32(z) && x <= z && (x < 0 <==> z < 0)
    ensures Interp15(t, x) <= Interp15(t, z)
  {
    if x >= 0 {
      Interp15Monotone(t, x, z);
    } else {
      var i, j := 0x1000 + x / TWO_20, 0x1000 + z / TWO_20;
      assert Lookup(t, i, x % TWO_20) <= Lookup(t, j, z % TWO_20) by {
        NegativeOrder(x, z);
        LookupGrows(t, i, x % TWO_20, j, z % TWO_20);
      }
      Interp15Negative(t, x);
      Interp15Negative(t, z);
    }
  }

  /** So it is monotone throughout exactly if it is from -1 to 0. */
  lemma Monotone15AtZero(t: seq<int>)
    requires IsTable(t, 16) && NonDecreasing(t)
    ensures Monotone15(t) <==> Interp15(t, -1) <= Interp15(t, 0)
  {
    if Interp15(t, -1) <= Interp15(t, 0) {
      forall x, z | IsInt32(x) && IsInt32(z) && x <= z ensures Interp15(t, x) <= Interp15(t, z) {
        if x < 0 <= z {
          Interp15SameSide(t, x, -1);
          Interp15SameSide(t, 0, z);
        } else {
          Interp15SameSide(t, x, z);
        }
      }
    }
  }

  // The value at a sample.
  function AtSample(y: int): int {
    if y > 0 then y - 1 else y
  }

  lemma Interp15AtZero(t: seq<int>)
    requires IsTable(t, 16)
    ensures Interp15(t, 0) == if |t| == 1 then t[0] else AtSample(t[0])
  {
    Interp15Forward(t, 0);
    if |t| > 1 { BlendInterpolates(t, 0, 0); }
  }

  // Position -1 is the last one of segment 4095.
  lemma Interp15AtMinusOne(t: seq<int>)
    requires IsTable(t, 16)
    ensures Interp15(t, -1) == if |t| <= 4096 then Last(t) else AtSample(t[4096])
  {
    Interp15Negative(t, -1);
    Saturation.SmallLimits();
    if |t| > 4096 { assert t[4095] * (FRACTION - FRACTION) == 0; }
  }

  /** For which tables the 16-bit routine is monotone over all positions: up to the documented size
      the table must be constant and not positive (one sample is enough), beyond it the samples 0
      and 4096 must be equal, or zero and one. */
  lemma Monotone15Iff(t: seq<int>)
    requires IsTable(t, 16) && NonDecreasing(t)
    ensures Monotone15(t) <==>
            || |t| == 1
            || (|t| <= 4096 && t[0] == Last(t) && t[0] <= 0)
            || (|t| > 4096 && (t[0] == t[4096] || (t[0] == 0 && t[4096] == 1)))
  {
    Monotone15AtZero(t);
    Interp15AtZero(t);
    Interp15AtMinusOne(t);
  }

  lemma Interp7Positive(t: seq<int>, x: int, z: int)
    requires IsTable(t, 8) && NonDecreasing(t) && 0 <= x <= z && IsInt32(z)
    ensures Interp7(t, x) <= Interp7(t, z)
  {
    NarrowTable(t);
    Interp7Forward(t, x);
    Interp7Forward(t, z);
    PositionOrder(x, z);
    LookupGrows(t, x / TWO_20, x % TWO_20, z / TWO_20, z % TWO_20);
  }

  /** The 8-bit routine clamps negative positions to the first sample, which is one above the value
      at zero if it is positive and not the only one. */
  lemma Interp7AtZero(t: seq<int>)
    requires IsTable(t, 8)
    ensures Interp7(t, 0) == if |t| == 1 then t[0] else AtSample(t[0])
  {
    NarrowTable(t);
    Interp7Forward(t, 0);
    if |t| > 1 { BlendInterpolates(t, 0, 0); }
  }

  /** A non-decreasing table gives a function that is non-decreasing over all positions, but for a
      step down by one between the negative positions and zero. */
  lemma Interp7Monotone(t: seq<int>, x: int, z: int)
    requires IsTable(t, 8) && NonDecreasing(t)
    requires IsInt32(x) && IsInt32(z) && x <= z
    ensures x >= 0 || z < 0 ==> Interp7(t, x) <= Interp7(t, z)
    ensures Interp7(t, x) <= Interp7(t, z) + if |t| == 1 || t[0] <= 0 then 0 else 1
  {
    if x >= 0 {
      Interp7Positive(t, x, z);
    } else if z >= 0 {
      Interp7AtZero(t);
      Interp7Positive(t, 0, z);
    }
  }

  /** There is no such step exactly for a table of one sample and for a first sample that is not
      positive. */
  lemma Monotone7Iff(t: seq<int>)
    requires IsTable(t, 8) && NonDecreasing(t)
    ensures Monotone7(t) <==> |t| == 1 || t[0] <= 0
  {
    if |t| == 1 || t[0] <= 0 {
      forall x, z | IsInt32(x) && IsInt32(z) && x <= z ensures Interp7(t, x) <= Interp7(t, z) {
        Interp7Monotone(t, x, z);
      }
    } else {
      Interp7AtZero(t);
      assert Interp7(t, -1) > Interp7(t, 0);
    }
  }
}
