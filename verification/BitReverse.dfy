/** The software __RBIT of core_cmInstr.h for cores without the instruction. */
module BitReverse {
  import opened Words

  /** The n low bits of v in reverse order. */
  function Reversed(v: nat, n: nat): (r: nat)
    ensures r < Pow2(n)
  {
    if n == 0 then 0 else v % 2 * Pow2(n - 1) + Reversed(v / 2, n - 1)
  }

  lemma {:induction false} ReversedZero(n: nat)
    ensures Reversed(0, n) == 0
  {
    if n > 0 { ReversedZero(n - 1); }
  }

  lemma {:induction false} HighBit(b: nat, r: nat, n: nat, i: nat)
    requires b < 2 && r < Pow2(n) && i <= n
    ensures Bit(b * Pow2(n) + r, i) == if i == n then b else Bit(r, i)
  {
    if n > 0 {
      Halves(r, n);
      assert b * Pow2(n) == 2 * (b * Pow2(n - 1));
      assert (b * Pow2(n) + r) / 2 == b * Pow2(n - 1) + r / 2;
      if i > 0 { HighBit(b, r / 2, n - 1, i - 1); }
    }
  }

  /** Bit i of the reversal is bit n - 1 - i of the word. */
  lemma {:induction false} ReversedBit(v: nat, n: nat, i: nat)
    requires i < n
    ensures Bit(Reversed(v, n), i) == Bit(v, n - 1 - i)
    decreases n
  {
    HighBit(v % 2, Reversed(v / 2, n - 1), n - 1, i);
    if i < n - 1 {
      ReversedBit(v / 2, n - 1, i);
    }
  }

  // Words of n bits with the same bits are the same.
  lemma {:induction false} SameBits(a: nat, b: nat, n: nat)
    requires a < Pow2(n) && b < Pow2(n)
    requires forall i :: 0 <= i < n ==> Bit(a, i) == Bit(b, i)
    ensures a == b
  {
    if n > 0 {
      assert Bit(a, 0) == Bit(b, 0);
      forall i | 0 <= i < n - 1 ensures Bit(a / 2, i) == Bit(b / 2, i) {
        assert Bit(a, i + 1) == Bit(b, i + 1);
      }
      SameBits(a / 2, b / 2, n - 1);
    }
  }

  /** Reversing twice gives the word back. */
  lemma ReversedTwice(v: nat, n: nat)
    requires v < Pow2(n)
    ensures Reversed(Reversed(v, n), n) == v
  {
    forall i | 0 <= i < n ensures Bit(Reversed(Reversed(v, n), n), i) == Bit(v, i) {
      ReversedBit(Reversed(v, n), n, i);
      ReversedBit(v, n, n - 1 - i);
    }
    SameBits(Reversed(Reversed(v, n), n), v, n);
  }

  // Congruence modulo 2^n, from the low part.
  lemma ModShift(a: int, b: int, m: nat)
    requires m > 0
    ensures (a + b * m) % m == a % m
  {
    DivModUnique(a + b * m, m, a / m + b, a % m);
    assert (a / m + b) * m == a / m * m + b * m;
  }

  // x + bit times 2p, when q * m is lost from 2x.
  lemma ScaledSum(x: nat, low: nat, q: nat, m: nat, bit: nat, p: nat)
    requires 2 * x == q * m + low
    ensures x * (2 * p) + bit * p == (low + bit) * p + q * p * m
  {
    assert x * (2 * p) == (2 * x) * p == (q * m + low) * p;
    assert (q * m + low) * p == q * m * p + low * p;
    assert q * m * p == q * p * m;
  }

  // result << 1 | bit, kept to 32 bits, still stands for the same final word.
  lemma ShiftIn(result: nat, bit: nat, rest: nat, s: nat)
    requires 0 < s <= 31 && bit < 2
    ensures var next := 2 * result % TWO_32 + bit;
            (next * Pow2(s - 1) + rest) % TWO_32 == (result * Pow2(s) + (bit * Pow2(s - 1) + rest)) % TWO_32
  {
    var p, q, low := Pow2(s - 1), 2 * result / TWO_32, 2 * result % TWO_32;
    ScaledSum(result, low, q, TWO_32, bit, p);
    ModShift((low + bit) * p + rest, q * p, TWO_32);
  }

  // The loop invariant: what the s shifts still to come will make of result, together with the bits
  // of value still to be read, is the reversal of the word.
  predicate Pending(word: nat, result: nat, value: nat, s: nat) {
    && s <= 31 && value < Pow2(s) && IsUint32(result)
    && (result * Pow2(s) + Reversed(value, s)) % TWO_32 == Reversed(word, 32)
  }

  lemma PendingAtStart(word: nat)
    requires IsUint32(word)
    ensures Pending(word, word, word / 2, 31)
  {
    PowersOfTwo();
    Halves(word, 32);
    var rest := Reversed(word / 2, 31);
    assert word * TWO_31 + rest == (word % 2 * TWO_31 + rest) + word / 2 * TWO_32;
    ModShift(word % 2 * TWO_31 + rest, word / 2, TWO_32);
    DivModUnique(Reversed(word, 32), TWO_32, 0, Reversed(word, 32));
  }

  // A left shift leaves room for one bit.
  lemma ShiftOr(result: nat, value: nat)
    ensures Or(2 * result % TWO_32, And(value, 1)) == 2 * result % TWO_32 + value % 2
    ensures IsUint32(2 * result % TWO_32 + value % 2)
  {
    assert 2 * result % TWO_32 % 2 == 0;
    AndOnes(value, 1);
    OrDigit(2 * result % TWO_32 / 2, 0, 0, value % 2);
  }

  lemma PendingSum(result: nat, value: nat, s: nat)
    requires 0 < s <= 31
    ensures ((2 * result % TWO_32 + value % 2) * Pow2(s - 1) + Reversed(value / 2, s - 1)) % TWO_32
         == (result * Pow2(s) + Reversed(value, s)) % TWO_32
  {
    ShiftIn(result, value % 2, Reversed(value / 2, s - 1), s);
  }

  lemma PendingStep(word: nat, result: nat, value: nat, s: nat)
    requires Pending(word, result, value, s) && value != 0
    ensures s > 0 && Pending(word, 2 * result % TWO_32 + value % 2, value / 2, s - 1)
  {
    Halves(value, s);
    PendingSum(result, value, s);
    ShiftOr(result, value);
  }

  /** The loop stops as soon as no set bit is left and then shifts by the s positions not done. */
  method Rbit(word: nat) returns (result: nat)
    requires IsUint32(word)
    ensures IsUint32(result) && result == Reversed(word, 32)
    ensures forall i :: 0 <= i < 32 ==> Bit(result, i) == Bit(word, 31 - i)
    ensures Reversed(result, 32) == word
  {
    PendingAtStart(word);
    PowersOfTwo();
    var s: nat := 31;
    result := word;
    var value: nat := word / 2;
    while value != 0
      invariant Pending(word, result, value, s)
      decreases value
    {
      PendingStep(word, result, value, s);
      ShiftOr(result, value);
      result := 2 * result % TWO_32;
      result := Or(result, And(value, 1));
      s := s - 1;
      value := value / 2;
    }
    ReversedZero(s);
    result := result * Pow2(s) % TWO_32;
    forall i | 0 <= i < 32 ensures Bit(result, i) == Bit(word, 31 - i) { ReversedBit(word, 32, i); }
    ReversedTwice(word, 32);
  }
}
