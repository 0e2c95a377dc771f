/** The fixed-point Clarke transform of arm_math.h and its inverse: how far a round trip can drift,
    and on which inputs the drift is small. */
module Clarke {
  import opened Words
  import opened Saturation

  datatype Phases = Phases(a: int, b: int)
  datatype Axes = Axes(alpha: int, beta: int)

  predicate IsPhases(i: Phases) {
    IsInt32(i.a) && IsInt32(i.b)
  }

  predicate IsAxes(i: Axes) {
    IsInt32(i.alpha) && IsInt32(i.beta)
  }

  // 1/sqrt(3) and 2/sqrt(3) with 30 fraction bits, sqrt(3)/2 with 31.
  const INV_ROOT_3: int := 0x24F3_4E8B
  const TWO_INV_ROOT_3: int := 0x49E6_9D16
  const HALF_ROOT_3: int := 0x6ED9_EBA1
  const TWO_30: int := 0x4000_0000

  function Forward(i: Phases): (r: Axes)
    requires IsPhases(i)
  {
    var product1 := Wrap32(i.a * INV_ROOT_3 / TWO_30);
    var product2 := Wrap32(i.b * TWO_INV_ROOT_3 / TWO_30);
    Axes(i.a, QAdd(product1, product2))
  }

  function Inverse(i: Axes): (r: Phases)
    requires IsAxes(i)
  {
    var product1 := Wrap32(i.alpha * TWO_30 / TWO_31);
    var product2 := Wrap32(i.beta * HALF_ROOT_3 / TWO_31);
    Phases(i.alpha, QSub(product2, product1))
  }

  // The products and the sum as integers, before conversion to 32 bits and saturation.
  function ProductA(i: Phases): int {
    i.a * INV_ROOT_3 / TWO_30
  }

  function ProductB(i: Phases): int {
    i.b * TWO_INV_ROOT_3 / TWO_30
  }

  function Sum(i: Phases): int {
    ProductA(i) + ProductB(i)
  }

  // x limited to 32 bits, in figures.
  function Limited(x: int): (r: int)
    ensures IsInt32(r)
  {
    if x >= TWO_31 then TWO_31 - 1 else if x < -TWO_31 then -TWO_31 else x
  }

  lemma ClipIsLimited(x: int)
    requires IsInt64(x)
    ensures ClipQ63ToQ31(x) == Limited(x)
  {
    SmallLimits();
    ClipIsClamp(x);
  }

  // The second phase before the last saturation, from a and the transformed beta.
  function Recovered(a: int, beta: int): int {
    beta * HALF_ROOT_3 / TWO_31 - a / 2
  }

  lemma ForwardValue(i: Phases)
    requires IsPhases(i)
    ensures Forward(i) == Axes(i.a, Limited(ProductA(i) + Wrap32(ProductB(i))))
    ensures IsAxes(Forward(i))
  {
    assert IsInt32(ProductA(i));
    ClipIsLimited(ProductA(i) + Wrap32(ProductB(i)));
  }

  lemma InverseValue(i: Axes)
    requires IsAxes(i)
    ensures Inverse(i) == Phases(i.alpha, Limited(Recovered(i.alpha, i.beta)))
    ensures IsPhases(Inverse(i))
  {
    var p, q := i.alpha * TWO_30 / TWO_31, i.beta * HALF_ROOT_3 / TWO_31;
    assert p == i.alpha / 2 && IsInt32(p) && IsInt32(q);
    ClipIsLimited(q - p);
  }

  function RoundTrip(i: Phases): (r: Phases)
    requires IsPhases(i)
    ensures IsPhases(r)
  {
    ForwardValue(i);
    InverseValue(Forward(i));
    Inverse(Forward(i))
  }

  // What the round trip adds to the second phase.
  function Error(i: Phases): int
    requires IsPhases(i)
  {
    RoundTrip(i).b - i.b
  }

  lemma ErrorValue(i: Phases)
    requires IsPhases(i)
    ensures RoundTrip(i).a == i.a
    ensures Error(i) == Limited(Recovered(i.a, Limited(ProductA(i) + Wrap32(ProductB(i))))) - i.b
  {
    ForwardValue(i);
    InverseValue(Forward(i));
  }

  // The three truncated multiplications of a round trip, in 2^-61 of an LSB. The constants miss
  // sqrt(3)/2 * 2/sqrt(3) = 1 by 941490986 / 2^61.
  lemma ErrorTerms(a: int, b: int, s: int)
    requires s == a * INV_ROOT_3 / TWO_30 + b * TWO_INV_ROOT_3 / TWO_30
    ensures var e := TWO_30 * TWO_31 * (Recovered(a, s) - b) + 470745493 * (a + 2 * b);
            -(TWO_30 * TWO_31 + 2 * TWO_30 * HALF_ROOT_3) < e <= TWO_30 * TWO_30
    ensures TWO_30 * s <= INV_ROOT_3 * (a + 2 * b) < TWO_30 * (s + 2)
  {
  }

  /** Guard of the round trip: the second product survives its conversion to 32 bits and the sum
      is not saturated. */
  predicate InRange(i: Phases) {
    IsInt32(ProductB(i)) && IsInt32(Sum(i))
  }

  /** Within the guard the first phase comes back exactly and the second within these bounds. */
  lemma RoundTripIsClose(i: Phases)
    requires IsPhases(i) && InRange(i)
    ensures RoundTrip(i).a == i.a && -3 <= Error(i) <= 1
  {
    ErrorValue(i);
    ErrorTerms(i.a, i.b, Sum(i));
  }

  /** Both bounds are reached. */
  lemma LowerBoundIsReached()
    ensures var i := Phases(782309946, 1241533301); IsPhases(i) && InRange(i) && Error(i) == -3
  {
    var i := Phases(782309946, 1241533301);
    assert ProductA(i) == 451666857 && ProductB(i) == 1433599170;
    ErrorValue(i);
  }

  lemma UpperBoundIsReached()
    ensures var i := Phases(7, -1712690641); IsPhases(i) && InRange(i) && Error(i) == 1
  {
    var i := Phases(7, -1712690641);
    assert ProductA(i) == 4 && ProductB(i) == -1977644805;
    ErrorValue(i);
  }

  // A wrapped product takes 2^32 off the sum, or adds it.
  lemma WrappedTerms(a: int, b: int, p: int, q: int)
    requires IsInt32(a) && IsInt32(b) && p == a * INV_ROOT_3 / TWO_30 && q == b * TWO_INV_ROOT_3 / TWO_30
    requires !IsInt32(q)
    ensures q >= TWO_31 ==> p + Wrap32(q) == p + q - TWO_32 < -0x2000_0000 && b > 0x6000_0000
    ensures q < -TWO_31 ==> p + Wrap32(q) == p + q + TWO_32 > 0x2000_0000 && b < -0x6000_0000
  {
  }

  lemma RecoveredSign(a: int, beta: int)
    requires IsInt32(a) && IsInt32(beta)
    ensures beta < -0x2000_0000 ==> Recovered(a, beta) < 0x2800_0000
    ensures beta > 0x2000_0000 ==> Recovered(a, beta) > -0x2800_0000
  {
  }

  /** A second product that does not fit 32 bits changes sign, and the second phase comes back
      more than an eighth of the range away. */
  lemma WrappedProductIsFar(i: Phases)
    requires IsPhases(i) && !IsInt32(ProductB(i))
    ensures Error(i) < -0x3000_0000 || Error(i) > 0x3000_0000
  {
    ErrorValue(i);
    WrappedTerms(i.a, i.b, ProductA(i), ProductB(i));
    RecoveredSign(i.a, Limited(ProductA(i) + Wrap32(ProductB(i))));
  }

  // A saturated sum always gives the same beta, so the error is decided by a + 2b alone.
  lemma SaturatedTerms(a: int, b: int)
    ensures Recovered(a, TWO_31 - 1) - b == 1859775392 - (a + 2 * b) / 2
    ensures Recovered(a, -TWO_31) - b == -1859775393 - (a + 2 * b) / 2
  {
  }

  /** For which inputs the second phase comes back within 4: the second product fits, and a + 2b,
      which decides what saturation costs, is in range. */
  lemma WithinFourIff(i: Phases)
    requires IsPhases(i)
    ensures -4 <= Error(i) <= 4 <==> IsInt32(ProductB(i)) && -3719550794 <= i.a + 2 * i.b <= 3719550793
  {
    if !IsInt32(ProductB(i)) {
      WrappedProductIsFar(i);
    } else if InRange(i) {
      RoundTripIsClose(i);
      ErrorTerms(i.a, i.b, Sum(i));
    } else {
      ErrorValue(i);
      ErrorTerms(i.a, i.b, Sum(i));
      SaturatedTerms(i.a, i.b);
    }
  }

  /** And for which inputs the bounds of an unsaturated round trip hold: a few more than InRange. */
  lemma TightBoundsIff(i: Phases)
    requires IsPhases(i)
    ensures -3 <= Error(i) <= 1 <==> IsInt32(ProductB(i)) && -3719550788 <= i.a + 2 * i.b <= 3719550791
  {
    if !IsInt32(ProductB(i)) {
      WrappedProductIsFar(i);
    } else if InRange(i) {
      RoundTripIsClose(i);
      ErrorTerms(i.a, i.b, Sum(i));
    } else {
      ErrorValue(i);
      ErrorTerms(i.a, i.b, Sum(i));
      SaturatedTerms(i.a, i.b);
    }
  }

  /** A large second phase alone: its product overflows, and a positive input comes back negative. */
  lemma OverflowChangesSign()
    ensures var i := Phases(0, 0x7FFF_FFFF);
            IsPhases(i) && !IsInt32(ProductB(i)) && RoundTrip(i).b == -1572067141
  {
    var i := Phases(0, 0x7FFF_FFFF);
    assert ProductA(i) == 0 && ProductB(i) == 2479700522;
    ErrorValue(i);
  }

  /** And both together, with products that fit: the sum saturates. */
  lemma SaturationLoses()
    ensures var i := Phases(0x7FFF_FFFF, 0x4000_0000);
            IsPhases(i) && IsInt32(ProductB(i)) && Error(i) == -287708255
  {
    var i := Phases(0x7FFF_FFFF, 0x4000_0000);
    assert ProductA(i) == 1239850261 && ProductB(i) == 1239850262;
    ErrorValue(i);
  }
}
