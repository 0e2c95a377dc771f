/** The incremental PID controllers of arm_math.h against the positional form
    Kp * x[n] + Ki * (x[1] + ... + x[n]) + Kd * (x[n] - x[n-1]). */
module Pid {
  import opened Words
  import opened Sequences

  // ---------- Fixed point ----------

  datatype Gains = Gains(a0: int, a1: int, a2: int)
  datatype Constants = Constants(kp: int, ki: int, kd: int)

  function GainsFor(k: Constants): Gains {
    Gains(k.kp + k.ki + k.kd, -k.kp - 2 * k.kd, k.kd)
  }

  // The sample `back` places before the end; samples before the first are zero.
  function Past(xs: seq<int>, back: nat): int {
    if back < |xs| then xs[|xs| - 1 - back] else 0
  }

  // A0 * x[n] + A1 * x[n-1] + A2 * x[n-2].
  function Increment(g: Gains, xs: seq<int>): int {
    g.a0 * Past(xs, 0) + g.a1 * Past(xs, 1) + g.a2 * Past(xs, 2)
  }

  /** The output after the samples xs from a zero state: a 64-bit accumulator, its high part, and a
      32-bit running sum, each wrapping around. */
  function Output(g: Gains, xs: seq<int>): int {
    if xs == [] then 0
    else Wrap32(Wrap32(Wrap64(Increment(g, xs)) / TWO_31) + Output(g, Front(xs)))
  }

  // The same with integers of any size: only the truncation is left.
  function Unwrapped(g: Gains, xs: seq<int>): int {
    if xs == [] then 0 else Increment(g, xs) / TWO_31 + Unwrapped(g, Front(xs))
  }

  function Total(xs: seq<int>): int {
    if xs == [] then 0 else Past(xs, 0) + Total(Front(xs))
  }

  /** The positional controller, times 2^31. */
  function Positional(k: Constants, xs: seq<int>): int {
    k.kp * Past(xs, 0) + k.ki * Total(xs) + k.kd * (Past(xs, 0) - Past(xs, 1))
  }

  lemma WrapModulo(x: int, q: int)
    ensures Wrap32(x + q * TWO_32) == Wrap32(x)
  {
    DivModUnique(x + q * TWO_32 + TWO_31, TWO_32, (x + TWO_31) / TWO_32 + q, (x + TWO_31) % TWO_32);
  }

  // Dropping multiples of 2^64 before the shift drops multiples of 2^33 after it.
  lemma AccumulatorWraps(acc: int)
    ensures Wrap32(Wrap64(acc) / TWO_31) == Wrap32(acc / TWO_31)
  {
    var q := (acc + TWO_63) / TWO_64;
    assert Wrap64(acc) == acc - q * TWO_64;
    DivModUnique(Wrap64(acc), TWO_31, acc / TWO_31 - 2 * q * TWO_32, acc % TWO_31);
    WrapModulo(acc / TWO_31, -2 * q);
  }

  lemma SumWraps(x: int, y: int)
    ensures Wrap32(Wrap32(x) + Wrap32(y)) == Wrap32(x + y)
  {
    var p, q := (x + TWO_31) / TWO_32, (y + TWO_31) / TWO_32;
    assert Wrap32(x) + Wrap32(y) == x + y + (-p - q) * TWO_32;
    WrapModulo(x + y, -p - q);
  }

  /** For every input, overflow of the accumulator and of the running sum only shows in the final
      conversion to 32 bits: what overflowed on the way is not lost. */
  lemma {:induction false} OutputIsWrapped(g: Gains, xs: seq<int>)
    ensures Output(g, xs) == Wrap32(Unwrapped(g, xs))
  {
    if xs != [] {
      OutputIsWrapped(g, Front(xs));
      AccumulatorWraps(Increment(g, xs));
      SumWraps(Increment(g, xs) / TWO_31, Unwrapped(g, Front(xs)));
    }
  }

  /** The increments telescope to the positional form. */
  lemma IncrementIsDifference(k: Constants, xs: seq<int>)
    requires xs != []
    ensures Increment(GainsFor(k), xs) == Positional(k, xs) - Positional(k, Front(xs))
  {
    var x, x1, x2, t := Past(xs, 0), Past(xs, 1), Past(xs, 2), Total(Front(xs));
    assert Past(Front(xs), 0) == x1 && Past(Front(xs), 1) == x2;
    assert (k.kp + k.ki + k.kd) * x == k.kp * x + k.ki * x + k.kd * x;
    assert (-k.kp - 2 * k.kd) * x1 == -k.kp * x1 - 2 * (k.kd * x1);
    assert k.ki * (x + t) == k.ki * x + k.ki * t;
    assert k.kd * (x - x1) == k.kd * x - k.kd * x1;
    assert k.kd * (x1 - x2) == k.kd * x1 - k.kd * x2;
  }

  /** Each sample truncates less than one LSB, always downwards. */
  lemma {:induction false} TruncationBound(k: Constants, xs: seq<int>)
    ensures 0 <= Positional(k, xs) - TWO_31 * Unwrapped(GainsFor(k), xs) <= |xs| * (TWO_31 - 1)
  {
    if xs != [] {
      TruncationBound(k, Front(xs));
      IncrementIsDifference(k, xs);
      var n := |Front(xs)|;
      assert (n + 1) * (TWO_31 - 1) == n * (TWO_31 - 1) + (TWO_31 - 1);
    } else {
      assert Positional(k, xs) == 0;
    }
  }

  predicate Follows(p: int, y: int, n: nat) {
    0 <= p - TWO_31 * y <= n * (TWO_31 - 1)
  }

  // Adding a multiple of 2^32 to y moves p - 2^31 * y by at least 2^63.
  lemma FollowsOnce(p: int, y: int, q: int, n: nat)
    requires n <= TWO_32 && Follows(p, y, n) && Follows(p, y + q * TWO_32, n)
    ensures q == 0
  {
    assert n * (TWO_31 - 1) < TWO_63;
    assert TWO_31 * (y + q * TWO_32) == TWO_31 * y + q * TWO_63;
  }

  /** The output is the positional controller, less a truncation below one LSB a sample, exactly
      when the untruncated sum fits 32 bits at the end, whatever overflowed before. The converse
      is for runs of up to 2^32 samples, beyond which the truncation alone can exceed the range. */
  lemma OutputIsPositional(k: Constants, xs: seq<int>)
    ensures var y, sum := Output(GainsFor(k), xs), Unwrapped(GainsFor(k), xs);
            && (IsInt32(sum) ==> Follows(Positional(k, xs), y, |xs|))
            && (|xs| <= TWO_32 && Follows(Positional(k, xs), y, |xs|) ==> IsInt32(sum))
  {
    var g := GainsFor(k);
    var sum := Unwrapped(g, xs);
    TruncationBound(k, xs);
    OutputIsWrapped(g, xs);
    var q := -((sum + TWO_31) / TWO_32);
    assert Output(g, xs) == sum + q * TWO_32;
    if |xs| <= TWO_32 && Follows(Positional(k, xs), Output(g, xs), |xs|) {
      FollowsOnce(Positional(k, xs), sum, q, |xs|);
    }
  }

  /** Scaled so that the positional controller stays within its range with room for the
      truncation, the output follows it. */
  lemma ScaledInputsFollow(k: Constants, xs: seq<int>)
    requires |xs| * (TWO_31 - 1) - TWO_31 * TWO_31 <= Positional(k, xs) < TWO_31 * TWO_31
    ensures Follows(Positional(k, xs), Output(GainsFor(k), xs), |xs|)
  {
    TruncationBound(k, xs);
    OutputIsPositional(k, xs);
  }

  function Constant(x: int, n: nat): seq<int> {
    seq(n, _ => x)
  }

  lemma {:induction false} ConstantTotal(x: int, n: nat)
    ensures Total(Constant(x, n)) == n * x
  {
    if n > 0 {
      assert Front(Constant(x, n)) == Constant(x, n - 1);
      ConstantTotal(x, n - 1);
      assert n * x == (n - 1) * x + x;
    }
  }

  lemma {:induction false} ConstantStalls(x: int, n: nat)
    requires 0 <= x < TWO_31
    ensures Output(Gains(1, 0, 0), Constant(x, n)) == 0
  {
    if n > 0 {
      var xs := Constant(x, n);
      assert Front(xs) == Constant(x, n - 1);
      ConstantStalls(x, n - 1);
      assert Increment(Gains(1, 0, 0), xs) == x;
    }
  }

  /** The bound is reached: a purely integral controller with the smallest gain never moves, even
      at the largest input, and falls behind by 2^31 - 1 with every sample. */
  lemma IntegralStalls(n: nat)
    ensures var k, xs := Constants(0, 1, 0), Constant(TWO_31 - 1, n);
            Output(GainsFor(k), xs) == 0 && Positional(k, xs) == n * (TWO_31 - 1)
  {
    ConstantStalls(TWO_31 - 1, n);
    ConstantTotal(TWO_31 - 1, n);
  }

  lemma {:induction false} IntegralSum(ki: int, x: int, n: nat)
    ensures Unwrapped(Gains(ki, 0, 0), Constant(x, n)) == n * (ki * x / TWO_31)
  {
    if n > 0 {
      var xs, v := Constant(x, n), ki * x / TWO_31;
      assert Front(xs) == Constant(x, n - 1);
      IntegralSum(ki, x, n - 1);
      assert Increment(Gains(ki, 0, 0), xs) == ki * x;
      assert n * v == (n - 1) * v + v;
    }
  }

  /** A purely integral controller on a constant input follows exactly as long as n truncated steps
      fit 32 bits: the running sum wraps around and is not saturated. */
  lemma IntegralFollowsIff(ki: int, x: int, n: nat)
    requires n <= TWO_32
    ensures var k, xs := Constants(0, ki, 0), Constant(x, n);
            Follows(Positional(k, xs), Output(GainsFor(k), xs), n) <==> IsInt32(n * (ki * x / TWO_31))
  {
    IntegralSum(ki, x, n);
    OutputIsPositional(Constants(0, ki, 0), Constant(x, n));
  }

  /** So no scaling of the input avoids overflow: if one step moves the output at all, 2^31 + 1 of
      them overflow. */
  lemma IntegralOverflows(ki: int, x: int)
    requires ki * x / TWO_31 != 0
    ensures var n := TWO_31 + 1;
            var k, xs := Constants(0, ki, 0), Constant(x, n);
            !Follows(Positional(k, xs), Output(GainsFor(k), xs), n)
  {
    var v, n := ki * x / TWO_31, TWO_31 + 1;
    AtLeastOnce(v, n);
    assert v * n == n * v;
    IntegralFollowsIff(ki, x, n);
  }

  lemma IntegralOutput(ki: int, x: int, n: nat)
    ensures var k, xs := Constants(0, ki, 0), Constant(x, n);
            Output(GainsFor(k), xs) == Wrap32(n * (ki * x / TWO_31)) && Positional(k, xs) == ki * (n * x)
  {
    IntegralSum(ki, x, n);
    ConstantTotal(x, n);
    OutputIsWrapped(Gains(ki, 0, 0), Constant(x, n));
  }

  const LARGEST: int := 0x7FFF_FFFF
  const SCALED: int := 0x1FFF_FFFF  // the largest input scaled down by two bits
  const FEW: nat := 5

  lemma ScaledFigures()
    ensures Wrap32(FEW * (LARGEST * SCALED / TWO_31)) == -1610612746 && LARGEST * (FEW * SCALED) > TWO_31 * TWO_31
  {
  }

  /** Five scaled samples are enough with the largest integral gain: the output is negative where the
      positional controller is beyond the top of the range. */
  lemma ScaledInputOverflows()
    ensures var k, xs := Constants(0, LARGEST, 0), Constant(SCALED, FEW);
            Output(GainsFor(k), xs) == -1610612746 && Positional(k, xs) > TWO_31 * TWO_31
  {
    IntegralOutput(LARGEST, SCALED, FEW);
    ScaledFigures();
  }

  /** arm_pid_instance_q31. */
  class PidQ31 {
    const gains: Gains
    var state: array<int>
    ghost var samples: seq<int>

    ghost predicate Valid()
      reads this, state
    {
      && state.Length == 3
      && IsInt32(gains.a0) && IsInt32(gains.a1) && IsInt32(gains.a2)
      && state[0] == Past(samples, 0) && state[1] == Past(samples, 1)
      && IsInt32(state[0]) && IsInt32(state[1])
      && state[2] == Output(gains, samples)
    }

    constructor (gains: Gains)
      requires IsInt32(gains.a0) && IsInt32(gains.a1) && IsInt32(gains.a2)
      ensures Valid() && fresh(state) && samples == [] && this.gains == gains
    {
      this.gains := gains;
      state := new int[3] [0, 0, 0];
      samples := [];
    }

    /** arm_pid_q31. */
    method Process(x: int) returns (out: int)
      requires Valid() && IsInt32(x)
      modifies this`samples, state
      ensures Valid() && samples == old(samples) + [x]
      ensures out == Output(gains, samples)
    {
      ghost var xs := samples + [x];
      assert Front(xs) == samples;
      var acc := Wrap64(gains.a0 * x);
      acc := Wrap64(acc + gains.a1 * state[0]);
      acc := Wrap64(acc + gains.a2 * state[1]);
      StepwiseWraps(gains.a0 * x, gains.a1 * state[0], gains.a2 * state[1]);
      assert acc == Wrap64(Increment(gains, xs));
      out := Wrap32(acc / TWO_31);
      out := Wrap32(out + state[2]);
      state[1] := state[0];
      state[0] := x;
      state[2] := out;
      samples := xs;
    }
  }

  lemma Wrap64Adds(x: int, y: int)
    ensures Wrap64(Wrap64(x) + y) == Wrap64(x + y)
  {
    var q := (x + TWO_63) / TWO_64;
    assert Wrap64(x) == x - q * TWO_64;
    DivModUnique(x + y - q * TWO_64 + TWO_63, TWO_64, (x + y + TWO_63) / TWO_64 - q, (x + y + TWO_63) % TWO_64);
  }

  lemma StepwiseWraps(x: int, y: int, z: int)
    ensures Wrap64(Wrap64(Wrap64(x) + y) + z) == Wrap64(x + y + z)
  {
    Wrap64Adds(x, y);
    Wrap64Adds(x + y, z);
  }

  // ---------- Floating point, over the reals ----------

  datatype RealGains = RealGains(a0: real, a1: real, a2: real)
  datatype RealConstants = RealConstants(kp: real, ki: real, kd: real)

  function RealGainsFor(k: RealConstants): RealGains {
    RealGains(k.kp + k.ki + k.kd, -k.kp - 2.0 * k.kd, k.kd)
  }

  function RealPast(xs: seq<real>, back: nat): real {
    if back < |xs| then xs[|xs| - 1 - back] else 0.0
  }

  function RealTotal(xs: seq<real>): real {
    if xs == [] then 0.0 else RealPast(xs, 0) + RealTotal(Front(xs))
  }

  function RealPositional(k: RealConstants, xs: seq<real>): real {
    k.kp * RealPast(xs, 0) + k.ki * RealTotal(xs) + k.kd * (RealPast(xs, 0) - RealPast(xs, 1))
  }

  /** Without rounding, one incremental step takes the positional controller to its next value. */
  lemma RealStep(k: RealConstants, xs: seq<real>, x: real)
    ensures var g := RealGainsFor(k);
            RealPositional(k, xs + [x]) == g.a0 * x + g.a1 * RealPast(xs, 0) + g.a2 * RealPast(xs, 1) + RealPositional(k, xs)
  {
    var ys, x1, x2, t := xs + [x], RealPast(xs, 0), RealPast(xs, 1), RealTotal(xs);
    assert Front(ys) == xs;
    assert RealPast(ys, 0) == x && RealPast(ys, 1) == x1;
    assert (k.kp + k.ki + k.kd) * x == k.kp * x + k.ki * x + k.kd * x;
    assert (-k.kp - 2.0 * k.kd) * x1 == -(k.kp * x1) - 2.0 * (k.kd * x1);
    assert k.ki * (x + t) == k.ki * x + k.ki * t;
    assert k.kd * (x - x1) == k.kd * x - k.kd * x1;
    assert k.kd * (x1 - x2) == k.kd * x1 - k.kd * x2;
  }

  /** arm_pid_instance_f32. */
  class PidF32 {
    const gains: RealGains
    var state: array<real>
    ghost const constants: RealConstants
    ghost var samples: seq<real>

    ghost predicate Valid()
      reads this, state
    {
      && state.Length == 3
      && gains == RealGainsFor(constants)
      && state[0] == RealPast(samples, 0) && state[1] == RealPast(samples, 1)
      && state[2] == RealPositional(constants, samples)
    }

    constructor (k: RealConstants)
      ensures Valid() && fresh(state) && samples == [] && constants == k
    {
      gains := RealGainsFor(k);
      constants := k;
      state := new real[3] [0.0, 0.0, 0.0];
      samples := [];
    }

    /** arm_pid_f32: the output is the positional controller of all samples so far. */
    method Process(x: real) returns (out: real)
      requires Valid()
      modifies this`samples, state
      ensures Valid() && samples == old(samples) + [x]
      ensures out == RealPositional(constants, samples)
    {
      RealStep(constants, samples, x);
      out := gains.a0 * x + gains.a1 * state[0] + gains.a2 * state[1] + state[2];
      state[1] := state[0];
      state[0] := x;
      state[2] := out;
      samples := samples + [x];
    }
  }
}
