/** Fixed-width words as integers: powers of two, C's wrap-around to 32 and 64 bits, and the
    bitwise operators, defined digit by digit. */
module Words {

  function Pow2(n: nat): (p: nat)
    ensures p > 0
  {
    if n == 0 then 1 else 2 * Pow2(n - 1)
  }

  lemma {:induction false} Pow2Adds(a: nat, b: nat)
    ensures Pow2(a + b) == Pow2(a) * Pow2(b)
    decreases b
  {
    if b > 0 {
      Pow2Adds(a, b - 1);
      assert Pow2(a + b) == 2 * (Pow2(a) * Pow2(b - 1)) == Pow2(a) * (2 * Pow2(b - 1));
    }
  }

  lemma {:induction false} Pow2Grows(a: nat, b: nat)
    requires a <= b
    ensures Pow2(a) <= Pow2(b)
    decreases b - a
  {
    if a < b { Pow2Grows(a, b - 1); }
  }

  const TWO_31: int := 0x8000_0000
  const TWO_32: int := 0x1_0000_0000

  predicate IsInt32(x: int) {
    -TWO_31 <= x < TWO_31
  }

  predicate IsUint32(x: int) {
    0 <= x < TWO_32
  }

  // Conversion to a signed 32-bit or 64-bit integer keeps the low bits.
  function Wrap32(x: int): (r: int)
    ensures IsInt32(r) && (IsInt32(x) ==> r == x)
  {
    (x + TWO_31) % TWO_32 - TWO_31
  }

  // Conversion to an unsigned 32-bit integer.
  function Unsigned(x: int): (r: nat)
    ensures IsUint32(r)
  {
    x % TWO_32
  }

  const TWO_63: int := 0x8000_0000_0000_0000
  const TWO_64: int := 0x1_0000_0000_0000_0000

  predicate IsInt64(x: int) {
    -TWO_63 <= x < TWO_63
  }

  function Wrap64(x: int): (r: int)
    ensures IsInt64(r) && (IsInt64(x) ==> r == x)
  {
    (x + TWO_63) % TWO_64 - TWO_63
  }

  // ---------- Bitwise operators ----------

  function And(a: nat, b: nat): nat {
    if a == 0 || b == 0 then 0 else 2 * And(a / 2, b / 2) + if a % 2 == 1 && b % 2 == 1 then 1 else 0
  }

  function Or(a: nat, b: nat): nat {
    if a == 0 then b
    else if b == 0 then a
    else 2 * Or(a / 2, b / 2) + if a % 2 == 1 || b % 2 == 1 then 1 else 0
  }

  function Bit(x: nat, i: nat): nat {
    if i == 0 then x % 2 else Bit(x / 2, i - 1)
  }

  // One more low digit on both sides.
  lemma AndDigit(a: nat, x: nat, b: nat, y: nat)
    requires x < 2 && y < 2
    ensures And(2 * a + x, 2 * b + y) == 2 * And(a, b) + if x == 1 && y == 1 then 1 else 0
  {
    assert (2 * a + x) / 2 == a && (2 * b + y) / 2 == b;
    assert (2 * a + x) % 2 == x && (2 * b + y) % 2 == y;
  }

  lemma OrDigit(a: nat, x: nat, b: nat, y: nat)
    requires x < 2 && y < 2
    ensures Or(2 * a + x, 2 * b + y) == 2 * Or(a, b) + if x == 1 || y == 1 then 1 else 0
  {
    assert (2 * a + x) / 2 == a && (2 * b + y) / 2 == b;
    assert (2 * a + x) % 2 == x && (2 * b + y) % 2 == y;
  }

  lemma Halves(r: nat, k: nat)
    requires k > 0 && r < Pow2(k)
    ensures r / 2 < Pow2(k - 1) && r == 2 * (r / 2) + r % 2
  {
  }

  // The word with high part a above bit k and low part r.
  function Join(a: nat, r: nat, k: nat): nat {
    if k == 0 then a else 2 * Join(a, r / 2, k - 1) + r % 2
  }

  lemma {:induction false} JoinValue(a: nat, r: nat, k: nat)
    requires r < Pow2(k)
    ensures Join(a, r, k) == a * Pow2(k) + r
    decreases k
  {
    if k > 0 {
      Halves(r, k);
      JoinValue(a, r / 2, k - 1);
      assert a * Pow2(k) == 2 * (a * Pow2(k - 1));
    }
  }

  lemma {:induction false} AndJoined(a: nat, r: nat, b: nat, s: nat, k: nat)
    requires r < Pow2(k) && s < Pow2(k)
    ensures And(Join(a, r, k), Join(b, s, k)) == Join(And(a, b), And(r, s), k)
    decreases k
  {
    if k > 0 {
      Halves(r, k);
      Halves(s, k);
      AndJoined(a, r / 2, b, s / 2, k - 1);
      AndDigit(Join(a, r / 2, k - 1), r % 2, Join(b, s / 2, k - 1), s % 2);
      AndDigit(r / 2, r % 2, s / 2, s % 2);
      assert And(r, s) / 2 == And(r / 2, s / 2);
    }
  }

  lemma {:induction false} OrJoined(a: nat, r: nat, b: nat, s: nat, k: nat)
    requires r < Pow2(k) && s < Pow2(k)
    ensures Or(Join(a, r, k), Join(b, s, k)) == Join(Or(a, b), Or(r, s), k)
    decreases k
  {
    if k > 0 {
      Halves(r, k);
      Halves(s, k);
      OrJoined(a, r / 2, b, s / 2, k - 1);
      OrDigit(Join(a, r / 2, k - 1), r % 2, Join(b, s / 2, k - 1), s % 2);
      OrDigit(r / 2, r % 2, s / 2, s % 2);
      assert Or(r, s) / 2 == Or(r / 2, s / 2);
    }
  }

  lemma {:induction false} AndSmall(a: nat, b: nat, k: nat)
    requires a < Pow2(k) && b < Pow2(k)
    ensures And(a, b) < Pow2(k)
    decreases k
  {
    if k > 0 {
      Halves(a, k);
      Halves(b, k);
      AndSmall(a / 2, b / 2, k - 1);
      AndDigit(a / 2, a % 2, b / 2, b % 2);
    }
  }

  lemma {:induction false} OrSmall(a: nat, b: nat, k: nat)
    requires a < Pow2(k) && b < Pow2(k)
    ensures Or(a, b) < Pow2(k)
    decreases k
  {
    if k > 0 {
      Halves(a, k);
      Halves(b, k);
      OrSmall(a / 2, b / 2, k - 1);
      OrDigit(a / 2, a % 2, b / 2, b % 2);
    }
  }

  /** Both operators work separately above and below bit k. */
  lemma AndSplit(a: nat, r: nat, b: nat, s: nat, k: nat)
    requires r < Pow2(k) && s < Pow2(k)
    ensures And(a * Pow2(k) + r, b * Pow2(k) + s) == And(a, b) * Pow2(k) + And(r, s)
  {
    AndJoined(a, r, b, s, k);
    AndSmall(r, s, k);
    JoinValue(a, r, k);
    JoinValue(b, s, k);
    JoinValue(And(a, b), And(r, s), k);
  }

  lemma OrSplit(a: nat, r: nat, b: nat, s: nat, k: nat)
    requires r < Pow2(k) && s < Pow2(k)
    ensures Or(a * Pow2(k) + r, b * Pow2(k) + s) == Or(a, b) * Pow2(k) + Or(r, s)
  {
    OrJoined(a, r, b, s, k);
    OrSmall(r, s, k);
    JoinValue(a, r, k);
    JoinValue(b, s, k);
    JoinValue(Or(a, b), Or(r, s), k);
  }

  // x >> k.
  function Shr(x: nat, k: nat): nat {
    if k == 0 then x else Shr(x / 2, k - 1)
  }

  lemma {:induction false} ShrIsDiv(x: nat, k: nat)
    ensures Shr(x, k) == x / Pow2(k)
    decreases k
  {
    if k > 0 {
      ShrIsDiv(x / 2, k - 1);
      DivModDigit(x, k);
    }
  }

  // Taking a word apart at bit k and putting it together again.
  lemma {:induction false} JoinParts(x: nat, k: nat)
    ensures Join(Shr(x, k), Low(x, k), k) == x && Low(x, k) < Pow2(k)
    decreases k
  {
    if k > 0 { JoinParts(x / 2, k - 1); }
  }

  lemma {:induction false} PartsOfJoin(a: nat, r: nat, k: nat)
    requires r < Pow2(k)
    ensures Shr(Join(a, r, k), k) == a && Low(Join(a, r, k), k) == r
    decreases k
  {
    if k > 0 {
      Halves(r, k);
      PartsOfJoin(a, r / 2, k - 1);
    }
  }

  lemma ShrFits(x: nat, k: nat, n: nat)
    requires k <= n && x < Pow2(n)
    ensures Shr(x, k) < Pow2(n - k)
    decreases k
  {
    if k > 0 {
      Halves(x, n);
      ShrFits(x / 2, k - 1, n - 1);
    }
  }

  lemma {:induction false} LowFits(x: nat, k: nat)
    requires x < Pow2(k)
    ensures Low(x, k) == x
    decreases k
  {
    if k > 0 {
      Halves(x, k);
      LowFits(x / 2, k - 1);
    }
  }

  // The k low digits of x.
  function Low(x: nat, k: nat): nat {
    if k == 0 then 0 else 2 * Low(x / 2, k - 1) + x % 2
  }

  lemma {:induction false} LowIsMod(x: nat, k: nat)
    ensures Low(x, k) == x % Pow2(k)
    decreases k
  {
    if k > 0 {
      LowIsMod(x / 2, k - 1);
      DivModDigit(x, k);
    }
  }

  lemma {:induction false} AndOnesLow(x: nat, k: nat)
    ensures And(x, Pow2(k) - 1) == Low(x, k)
    decreases k
  {
    if k > 0 {
      AndOnesLow(x / 2, k - 1);
      AndDigit(x / 2, x % 2, Pow2(k - 1) - 1, 1);
    }
  }

  // k ones.
  function Ones(k: nat): nat {
    Pow2(k) - 1
  }

  // Masking with k ones.
  lemma AndOnes(x: nat, k: nat)
    ensures And(x, Pow2(k) - 1) == x % Pow2(k)
  {
    AndOnesLow(x, k);
    LowIsMod(x, k);
  }

  lemma DivModDigit(x: nat, k: nat)
    requires k > 0
    ensures x % Pow2(k) == 2 * (x / 2 % Pow2(k - 1)) + x % 2
    ensures x / Pow2(k) == x / 2 / Pow2(k - 1)
  {
    var q, r := x / 2 / Pow2(k - 1), x / 2 % Pow2(k - 1);
    assert x == 2 * (x / 2) + x % 2;
    assert x / 2 == q * Pow2(k - 1) + r;
    assert x == q * Pow2(k) + (2 * r + x % 2);
    DivModUnique(x, Pow2(k), q, 2 * r + x % 2);
  }

  lemma DivModUnique(x: int, d: nat, q: int, r: int)
    requires d > 0 && x == q * d + r && 0 <= r < d
    ensures x / d == q && x % d == r
  {
    var p := x / d - q;
    assert p * d == r - x % d;
    AtLeastOnce(p, d);
  }

  // A multiple of d other than zero is at least d away from it.
  lemma AtLeastOnce(p: int, d: nat)
    ensures p > 0 ==> p * d >= d
    ensures p < 0 ==> p * d <= -(d as int)
  {
    if p > 0 { assert (p - 1) * d >= 0; }
    if p < 0 { assert (-1 - p) * d >= 0; }
  }

  lemma ProductMonotone(a: int, b: int, c: int)
    requires a <= b && 0 <= c
    ensures a * c <= b * c
  {
    assert (b - a) * c >= 0;
  }

  lemma ModAdds(x: int, y: int, d: int)
    requires d > 0
    ensures (x % d + y) % d == (x + y) % d
  {
    var q, z := x / d, x % d + y;
    DivModUnique(x + y, d, q + z / d, z % d);
  }

  // Joining fields that do not overlap.
  lemma OrDisjoint(a: nat, s: nat, k: nat)
    requires s < Pow2(k)
    ensures Or(a * Pow2(k), s) == a * Pow2(k) + s
    ensures Or(s, a * Pow2(k)) == a * Pow2(k) + s
  {
    assert Or(a, 0) == a && Or(0, a) == a && Or(0, s) == s && Or(s, 0) == s;
    assert 0 * Pow2(k) == 0;
    OrSplit(a, 0, 0, s, k);
    OrSplit(0, s, a, 0, k);
  }

  lemma SmallMod(r: nat, d: nat)
    requires r < d
    ensures r % d == r && r / d == 0
  {
  }

  // Clearing the low k bits of an n-bit word with the mask 2^n - 2^k.
  lemma AndHigh(q: nat, r: nat, k: nat, n: nat)
    requires k <= n && r < Pow2(k) && q < Pow2(n - k)
    ensures Pow2(n) >= Pow2(k) && And(q * Pow2(k) + r, Pow2(n) - Pow2(k)) == q * Pow2(k)
  {
    Pow2Adds(n - k, k);
    Pow2Grows(k, n);
    var e := Pow2(n - k);
    assert (e - 1) * Pow2(k) + 0 == Pow2(n) - Pow2(k);
    AndOnes(q, n - k);
    DivModUnique(q, e, 0, q);
    AndSplit(q, r, e - 1, 0, k);
  }

  lemma PowersOfTwo()
    ensures Pow2(8) == 0x100 && Pow2(16) == 0x1_0000 && Pow2(31) == TWO_31 && Pow2(32) == TWO_32
  {
    Pow2Adds(4, 4);
    Pow2Adds(8, 8);
    Pow2Adds(16, 16);
  }

  /** The 64-bit constants are the powers of two they are named after. */
  lemma LongPowersOfTwo()
    ensures Pow2(63) == TWO_63 && Pow2(64) == TWO_64
  {
    PowersOfTwo();
    Pow2Adds(32, 32);
    Pow2Adds(32, 31);
  }

  /** The operators bit by bit. */
  lemma {:induction false} AndBit(a: nat, b: nat, i: nat)
    ensures Bit(And(a, b), i) == 1 <==> Bit(a, i) == 1 && Bit(b, i) == 1
    decreases i
  {
    AndDigit(a / 2, a % 2, b / 2, b % 2);
    if i > 0 { AndBit(a / 2, b / 2, i - 1); }
  }

  lemma {:induction false} OrBit(a: nat, b: nat, i: nat)
    ensures Bit(Or(a, b), i) == 1 <==> Bit(a, i) == 1 || Bit(b, i) == 1
    decreases i
  {
    OrDigit(a / 2, a % 2, b / 2, b % 2);
    if i > 0 { OrBit(a / 2, b / 2, i - 1); }
  }
}
