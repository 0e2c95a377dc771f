/** Saturating arithmetic of arm_math.h: __SSAT and the packed additions and subtractions built on
    it, clip_q63_to_q31, __QADD, __QSUB and mult32x64. */
module Saturation {
  import opened Words

  // One past the largest signed number of so many bits.
  function Limit(bits: nat): (l: int)
    requires bits > 0
    ensures l > 0
  {
    Pow2(bits - 1)
  }

  function Clamp(x: int, bits: nat): (r: int)
    requires bits > 0
    ensures -Limit(bits) <= r < Limit(bits)
    ensures -Limit(bits) <= x < Limit(bits) ==> r == x
  {
    if x >= Limit(bits) then Limit(bits) - 1
    else if x < -Limit(bits) then -Limit(bits)
    else x
  }

  function Distance(a: int, b: int): nat {
    if a < b then b - a else a - b
  }

  /** Clamping gives the value of the range that is closest. */
  lemma ClampIsNearest(x: int, bits: nat, v: int)
    requires bits > 0 && -Limit(bits) <= v < Limit(bits)
    ensures Distance(x, Clamp(x, bits)) <= Distance(x, v)
  {
  }

  // ---------- __SSAT ----------

  // Before its last step the doubling loop stays below 2^31.
  lemma Doubling(i: nat)
    requires i < 31
    ensures Wrap32(Pow2(i)) == Pow2(i) <= 0x4000_0000
  {
    PowersOfTwo();
    Pow2Grows(i, 30);
  }

  // What the doubling leaves: 2^31 itself wraps to the most negative integer.
  lemma Doubled(n: nat)
    requires n <= 31
    ensures Pow2(n) <= TWO_31 && Wrap32(Pow2(n)) == if n < 31 then Pow2(n) else -TWO_31
  {
    PowersOfTwo();
    if n < 31 { Doubling(n); }
  }

  /** The doubling loop; it works at 32 bits only because 2^31 wraps around. */
  method Ssat(x: int, y: nat) returns (r: int)
    requires IsInt32(x) && 1 <= y <= 32
    ensures r == Clamp(x, y)
  {
    Doubled(y - 1);
    var posMax := 1;
    var i := 0;
    while i < y - 1
      invariant 0 <= i <= y - 1
      invariant posMax == Wrap32(Pow2(i))
    {
      Doubling(i);
      posMax := Wrap32(posMax * 2);
      i := i + 1;
    }
    r := x;
    if x > 0 {
      posMax := Wrap32(posMax - 1);
      if x > posMax {
        r := posMax;
      }
    } else {
      var negMin := Wrap32(-posMax);
      if x < negMin {
        r := negMin;
      }
    }
  }

  // ---------- Signed lanes ----------

  function Wrap8(x: int): (r: int)
    ensures -128 <= r < 128 && (-128 <= x < 128 ==> r == x)
  {
    (x + 128) % 256 - 128
  }

  function Wrap16(x: int): (r: int)
    ensures -0x8000 <= r < 0x8000 && (-0x8000 <= x < 0x8000 ==> r == x)
  {
    (x + 0x8000) % 0x1_0000 - 0x8000
  }

  /** The four signed bytes and the two signed halfwords of a word, lowest first. */
  function Byte(x: int, i: nat): int
    requires i < 4
  {
    if i == 0 then Wrap8(x)
    else if i == 1 then Wrap8(x / 0x100)
    else if i == 2 then Wrap8(x / 0x1_0000)
    else Wrap8(x / 0x100_0000)
  }

  function Half(x: int, i: nat): int
    requires i < 2
  {
    if i == 0 then Wrap16(x) else Wrap16(x / 0x1_0000)
  }

  // x << k for a signed word.
  function Shl(x: int, scale: nat): int {
    Wrap32(x * scale)
  }

  // A signed word as three unsigned bytes below a signed one.
  lemma Bytes(x: int) returns (b0: nat, b1: nat, b2: nat, b3: int)
    requires IsInt32(x)
    ensures b0 < 256 && b1 < 256 && b2 < 256 && -128 <= b3 < 128
    ensures x == b3 * 0x100_0000 + b2 * 0x1_0000 + b1 * 0x100 + b0
    ensures Byte(x, 0) == Wrap8(b0) && Byte(x, 1) == Wrap8(b1) && Byte(x, 2) == Wrap8(b2) && Byte(x, 3) == b3
    ensures x / 0x100_0000 == b3
  {
    var x1 := x / 256;
    var x2 := x1 / 256;
    b0, b1, b2, b3 := x % 256, x1 % 256, x2 % 256, x2 / 256;
    DivModUnique(x, 0x100_0000, b3, b2 * 0x1_0000 + b1 * 0x100 + b0);
    SignedBytes(b3, b2, b1, b0);
  }

  lemma Wrap8Low(q: int, b: int)
    ensures Wrap8(q * 256 + b) == Wrap8(b)
  {
    DivModUnique(q * 256 + b + 128, 256, q + (b + 128) / 256, (b + 128) % 256);
  }

  lemma Wrap32Low(q: int, v: int)
    ensures Wrap32(q * TWO_32 + v) == Wrap32(v)
  {
    DivModUnique(q * TWO_32 + v + TWO_31, TWO_32, q + (v + TWO_31) / TWO_32, (v + TWO_31) % TWO_32);
  }

  // A byte moved to the top of the word and back down is sign-extended.
  lemma SignExtend(b: nat, rest: nat)
    requires b < 256 && rest < 0x100_0000
    ensures Wrap32(b * 0x100_0000 + rest) / 0x100_0000 == Wrap8(b)
  {
    if b < 128 {
      DivModUnique(b * 0x100_0000 + rest, 0x100_0000, b, rest);
    } else {
      Wrap32Low(1, (b - 256) * 0x100_0000 + rest);
      DivModUnique((b - 256) * 0x100_0000 + rest, 0x100_0000, b - 256, rest);
    }
  }

  // Sign-extending the bytes by shifting left and right again.
  lemma ExtractBytes(x: int)
    requires IsInt32(x)
    ensures Shl(x, 0x1_0000) / 0x100_0000 == Byte(x, 1)
    ensures Shl(x, 0x100) / 0x100_0000 == Byte(x, 2)
    ensures x / 0x100_0000 == Byte(x, 3)
    ensures Wrap8(x) == Byte(x, 0)
  {
    var b0, b1, b2, b3 := Bytes(x);
    Wrap32Low(b3 * 256 + b2, b1 * 0x100_0000 + b0 * 0x1_0000);
    SignExtend(b1, b0 * 0x1_0000);
    Wrap32Low(b3, b2 * 0x100_0000 + b1 * 0x1_0000 + b0 * 0x100);
    SignExtend(b2, b1 * 0x1_0000 + b0 * 0x100);
    assert x * 0x1_0000 == (b3 * 256 + b2) * TWO_32 + (b1 * 0x100_0000 + b0 * 0x1_0000);
    assert x * 0x100 == b3 * TWO_32 + (b2 * 0x100_0000 + b1 * 0x1_0000 + b0 * 0x100);
  }

  // The conversion to a signed byte, then (x << 16) >> 24, (x << 8) >> 24 and x >> 24.
  method SignedBytesOf(x: int) returns (b0: int, b1: int, b2: int, b3: int)
    requires IsInt32(x)
    ensures b0 == Byte(x, 0) && b1 == Byte(x, 1) && b2 == Byte(x, 2) && b3 == Byte(x, 3)
    ensures -128 <= b0 < 128 && -128 <= b1 < 128 && -128 <= b2 < 128 && -128 <= b3 < 128
  {
    ExtractBytes(x);
    b0, b1, b2, b3 := Wrap8(x), Shl(x, 0x1_0000) / 0x100_0000, Shl(x, 0x100) / 0x100_0000, x / 0x100_0000;
  }

  // ---------- Putting lanes together ----------

  lemma MaskedAt(w: nat, k: nat, n: nat)
    ensures And(w * Pow2(k), Ones(n) * Pow2(k)) == w % Pow2(n) * Pow2(k)
  {
    AndSplit(w, 0, Ones(n), 0, k);
    AndOnes(w, n);
  }

  lemma LowByteOfLow(v: int)
    ensures v % 0x1_0000 % 256 == v % 256 && v % 0x100_0000 % 256 == v % 256 && v % TWO_32 % 256 == v % 256
  {
    DivModUnique(v % 0x1_0000, 256, v / 256 - v / 0x1_0000 * 0x100, v % 256);
    DivModUnique(v % 0x100_0000, 256, v / 256 - v / 0x100_0000 * 0x1_0000, v % 256);
    DivModUnique(v % TWO_32, 256, v / 256 - v / TWO_32 * 0x100_0000, v % 256);
  }

  lemma UnsignedScaled(v: int)
    ensures Unsigned(v * 0x100_0000) == v % 0x100 * 0x100_0000
    ensures Unsigned(v * 0x1_0000) == v % 0x1_0000 * 0x1_0000
    ensures Unsigned(v * 0x100) == v % 0x100_0000 * 0x100
  {
    DivModUnique(v * 0x100_0000, TWO_32, v / 0x100, v % 0x100 * 0x100_0000);
    DivModUnique(v * 0x1_0000, TWO_32, v / 0x1_0000, v % 0x1_0000 * 0x1_0000);
    DivModUnique(v * 0x100, TWO_32, v / 0x100_0000, v % 0x100_0000 * 0x100);
  }

  // w shifted up by k bits, seen through a mask of n ones at the same place.
  lemma MaskedField(w: nat, low: nat, k: nat, n: nat, scale: nat, mask: nat)
    requires scale == Pow2(k) && mask == Ones(n) * Pow2(k) && low == w % Pow2(n)
    ensures And(w * scale, mask) == low * scale
  {
    MaskedAt(w, k, n);
  }

  // (v << 24) & 0xFF000000 and so on down to v & 0xFF.
  lemma MaskedBytes(v: int)
    ensures And(Unsigned(v * 0x100_0000), 0xFF00_0000) == v % 256 * 0x100_0000
    ensures And(Unsigned(v * 0x1_0000), 0x00FF_0000) == v % 256 * 0x1_0000
    ensures And(Unsigned(v * 0x100), 0x0000_FF00) == v % 256 * 0x100
    ensures And(Unsigned(v), 0x0000_00FF) == v % 256
  {
    Scales();
    UnsignedScaled(v);
    LowByteOfLow(v);
    MaskedField(v % 0x100, v % 256, 24, 8, 0x100_0000, 0xFF00_0000);
    MaskedField(v % 0x1_0000, v % 256, 16, 8, 0x1_0000, 0x00FF_0000);
    MaskedField(v % 0x100_0000, v % 256, 8, 8, 0x100, 0x0000_FF00);
    MaskedField(v % TWO_32, v % 256, 0, 8, 1, 0x0000_00FF);
  }

  lemma LowHalfOfLow(v: int)
    ensures v % TWO_32 % 0x1_0000 == v % 0x1_0000 && v % 0x1_0000 % 0x1_0000 == v % 0x1_0000
  {
    DivModUnique(v % TWO_32, 0x1_0000, v / 0x1_0000 - v / TWO_32 * 0x1_0000, v % 0x1_0000);
  }

  lemma MaskedHalves(v: int)
    ensures And(Unsigned(v * 0x1_0000), 0xFFFF_0000) == v % 0x1_0000 * 0x1_0000
    ensures And(Unsigned(v), 0x0000_FFFF) == v % 0x1_0000
  {
    Scales();
    UnsignedScaled(v);
    LowHalfOfLow(v);
    MaskedField(v % 0x1_0000, v % 0x1_0000, 16, 16, 0x1_0000, 0xFFFF_0000);
    MaskedField(v % TWO_32, v % 0x1_0000, 0, 16, 1, 0x0000_FFFF);
  }

  /** The word whose bytes are the low bytes of u, t, s, r, as the source puts it together. */
  function PackBytes(u: int, t: int, s: int, r: int): int {
    Wrap32(Or(Or(Or(And(Unsigned(u * 0x100_0000), 0xFF00_0000), And(Unsigned(t * 0x1_0000), 0x00FF_0000)),
                 And(Unsigned(s * 0x100), 0x0000_FF00)),
              And(Unsigned(r), 0x0000_00FF)))
  }

  // Four unsigned bytes as a word.
  function Word(b3: nat, b2: nat, b1: nat, b0: nat): nat {
    b3 * 0x100_0000 + b2 * 0x1_0000 + b1 * 0x100 + b0
  }

  lemma OrBytes(b3: nat, b2: nat, b1: nat, b0: nat)
    requires b3 < 256 && b2 < 256 && b1 < 256 && b0 < 256
    ensures Or(Or(Or(b3 * 0x100_0000, b2 * 0x1_0000), b1 * 0x100), b0) == Word(b3, b2, b1, b0)
  {
    var two, three := b3 * 0x100_0000 + b2 * 0x1_0000, b3 * 0x100_0000 + b2 * 0x1_0000 + b1 * 0x100;
    assert Or(b3 * 0x100_0000, b2 * 0x1_0000) == two by { Scales(); OrDisjoint(b3, b2 * 0x1_0000, 24); }
    assert Or(two, b1 * 0x100) == three by { Scales(); OrDisjoint(b3 * 0x100 + b2, b1 * 0x100, 16); }
    assert Or(three, b0) == three + b0 by { Scales(); OrDisjoint(b3 * 0x1_0000 + b2 * 0x100 + b1, b0, 8); }
  }

  lemma PackBytesValue(u: int, t: int, s: int, r: int)
    ensures PackBytes(u, t, s, r) == Wrap32(Word(u % 256, t % 256, s % 256, r % 256))
  {
    assert And(Unsigned(u * 0x100_0000), 0xFF00_0000) == u % 256 * 0x100_0000 by { MaskedBytes(u); }
    assert And(Unsigned(t * 0x1_0000), 0x00FF_0000) == t % 256 * 0x1_0000 by { MaskedBytes(t); }
    assert And(Unsigned(s * 0x100), 0x0000_FF00) == s % 256 * 0x100 by { MaskedBytes(s); }
    assert And(Unsigned(r), 0x0000_00FF) == r % 256 by { MaskedBytes(r); }
    OrBytes(u % 256, t % 256, s % 256, r % 256);
  }

  // The signed word with these bytes, and its lanes.
  lemma WordBytes(b3: nat, b2: nat, b1: nat, b0: nat)
    requires b3 < 256 && b2 < 256 && b1 < 256 && b0 < 256
    ensures var w := Wrap32(Word(b3, b2, b1, b0));
            Byte(w, 3) == Wrap8(b3) && Byte(w, 2) == Wrap8(b2) && Byte(w, 1) == Wrap8(b1) && Byte(w, 0) == Wrap8(b0)
  {
    var top: int := if b3 < 128 then b3 else b3 - 256;
    var word := top * 0x100_0000 + b2 * 0x1_0000 + b1 * 0x100 + b0;
    assert Wrap32(Word(b3, b2, b1, b0)) == word by { Wrap32Low(if b3 < 128 then 0 else 1, word); }
    SignedBytes(top, b2, b1, b0);
  }

  lemma SignedBytes(b3: int, b2: nat, b1: nat, b0: nat)
    requires -128 <= b3 < 128 && b2 < 256 && b1 < 256 && b0 < 256
    ensures var w := b3 * 0x100_0000 + b2 * 0x1_0000 + b1 * 0x100 + b0;
            Byte(w, 3) == b3 && Byte(w, 2) == Wrap8(b2) && Byte(w, 1) == Wrap8(b1) && Byte(w, 0) == Wrap8(b0)
  {
    var w := b3 * 0x100_0000 + b2 * 0x1_0000 + b1 * 0x100 + b0;
    DivModUnique(w, 0x100, b3 * 0x1_0000 + b2 * 0x100 + b1, b0);
    DivModUnique(w, 0x1_0000, b3 * 0x100 + b2, b1 * 0x100 + b0);
    DivModUnique(w, 0x100_0000, b3, b2 * 0x1_0000 + b1 * 0x100 + b0);
    Wrap8Low(b3 * 0x1_0000 + b2 * 0x100 + b1, b0);
    Wrap8Low(b3 * 0x100 + b2, b1);
    Wrap8Low(b3, b2);
  }

  /** Lane by lane, packing takes the signed low byte of each argument. */
  lemma PackedBytes(u: int, t: int, s: int, r: int)
    ensures var p := PackBytes(u, t, s, r);
            Byte(p, 3) == Wrap8(u) && Byte(p, 2) == Wrap8(t) && Byte(p, 1) == Wrap8(s) && Byte(p, 0) == Wrap8(r)
  {
    PackBytesValue(u, t, s, r);
    WordBytes(u % 256, t % 256, s % 256, r % 256);
    Wrap8Low(u / 256, u % 256);
    Wrap8Low(t / 256, t % 256);
    Wrap8Low(s / 256, s % 256);
    Wrap8Low(r / 256, r % 256);
  }

  /** The word whose halfwords are the low halfwords of s and r. */
  function PackHalves(s: int, r: int): int {
    Wrap32(Or(And(Unsigned(s * 0x1_0000), 0xFFFF_0000), And(Unsigned(r), 0x0000_FFFF)))
  }

  lemma Wrap16Low(q: int, b: int)
    ensures Wrap16(q * 0x1_0000 + b) == Wrap16(b)
  {
    DivModUnique(q * 0x1_0000 + b + 0x8000, 0x1_0000, q + (b + 0x8000) / 0x1_0000, (b + 0x8000) % 0x1_0000);
  }

  lemma ExtractHalves(x: int)
    requires IsInt32(x)
    ensures x / 0x1_0000 == Half(x, 1) && Wrap16(x) == Half(x, 0)
    ensures x == Half(x, 1) * 0x1_0000 + x % 0x1_0000 && Half(x, 0) == Wrap16(x % 0x1_0000)
  {
    Wrap16Low(x / 0x1_0000, x % 0x1_0000);
  }

  lemma SignedHalves(b1: int, b0: nat)
    requires -0x8000 <= b1 < 0x8000 && b0 < 0x1_0000
    ensures Half(b1 * 0x1_0000 + b0, 1) == b1 && Half(b1 * 0x1_0000 + b0, 0) == Wrap16(b0)
  {
    DivModUnique(b1 * 0x1_0000 + b0, 0x1_0000, b1, b0);
    Wrap16Low(b1, b0);
  }

  lemma PackHalvesValue(s: int, r: int)
    ensures PackHalves(s, r) == Wrap32(s % 0x1_0000 * 0x1_0000 + r % 0x1_0000)
  {
    var b1: nat, b0: nat := s % 0x1_0000, r % 0x1_0000;
    assert And(Unsigned(s * 0x1_0000), 0xFFFF_0000) == b1 * 0x1_0000 by { MaskedHalves(s); }
    assert And(Unsigned(r), 0x0000_FFFF) == b0 by { MaskedHalves(r); }
    assert Or(b1 * 0x1_0000, b0) == b1 * 0x1_0000 + b0 by { Scales(); OrDisjoint(b1, b0, 16); }
  }

  // The signed word with these halfwords, and its lanes.
  lemma WordHalves(b1: nat, b0: nat)
    requires b1 < 0x1_0000 && b0 < 0x1_0000
    ensures var w := Wrap32(b1 * 0x1_0000 + b0);
            Half(w, 1) == Wrap16(b1) && Half(w, 0) == Wrap16(b0)
  {
    var top: int := if b1 < 0x8000 then b1 else b1 - 0x1_0000;
    Wrap32Low(if b1 < 0x8000 then 0 else 1, top * 0x1_0000 + b0);
    SignedHalves(top, b0);
  }

  lemma PackedHalves(s: int, r: int)
    ensures var p := PackHalves(s, r);
            Half(p, 1) == Wrap16(s) && Half(p, 0) == Wrap16(r)
  {
    PackHalvesValue(s, r);
    WordHalves(s % 0x1_0000, r % 0x1_0000);
    Wrap16Low(s / 0x1_0000, s % 0x1_0000);
    Wrap16Low(r / 0x1_0000, r % 0x1_0000);
  }

  lemma Scales()
    ensures Pow2(8) == 0x100 && Pow2(16) == 0x1_0000 && Pow2(24) == 0x100_0000
  {
    PowersOfTwo();
    Pow2Adds(16, 8);
  }

  // ---------- The packed operations ----------

  lemma SmallLimits()
    ensures Limit(8) == 128 && Limit(16) == 0x8000 && Limit(32) == TWO_31
  {
    PowersOfTwo();
    Pow2Adds(8, 7);
    Pow2Adds(16, 15);
  }

  // The bytes of a packed word of clamped bytes.
  lemma PackedClamps(u: int, t: int, s: int, r: int, a3: int, a2: int, a1: int, a0: int)
    requires u == Clamp(a3, 8) && t == Clamp(a2, 8) && s == Clamp(a1, 8) && r == Clamp(a0, 8)
    ensures var p := PackBytes(u, t, s, r);
            Byte(p, 3) == u && Byte(p, 2) == t && Byte(p, 1) == s && Byte(p, 0) == r
  {
    SmallLimits();
    PackedBytes(u, t, s, r);
  }

  /** Four independent saturating additions. */
  method QAdd8(x: int, y: int) returns (sum: int)
    requires IsInt32(x) && IsInt32(y)
    ensures Byte(sum, 0) == Clamp(Byte(x, 0) + Byte(y, 0), 8) && Byte(sum, 1) == Clamp(Byte(x, 1) + Byte(y, 1), 8)
    ensures Byte(sum, 2) == Clamp(Byte(x, 2) + Byte(y, 2), 8) && Byte(sum, 3) == Clamp(Byte(x, 3) + Byte(y, 3), 8)
  {
    var x0, x1, x2, x3 := SignedBytesOf(x);
    var y0, y1, y2, y3 := SignedBytesOf(y);
    var r := Ssat(x0 + y0, 8);
    var s := Ssat(x1 + y1, 8);
    var t := Ssat(x2 + y2, 8);
    var u := Ssat(x3 + y3, 8);
    sum := PackBytes(u, t, s, r);
    PackedClamps(u, t, s, r, x3 + y3, x2 + y2, x1 + y1, x0 + y0);
  }

  /** Four independent saturating subtractions. */
  method QSub8(x: int, y: int) returns (diff: int)
    requires IsInt32(x) && IsInt32(y)
    ensures Byte(diff, 0) == Clamp(Byte(x, 0) - Byte(y, 0), 8) && Byte(diff, 1) == Clamp(Byte(x, 1) - Byte(y, 1), 8)
    ensures Byte(diff, 2) == Clamp(Byte(x, 2) - Byte(y, 2), 8) && Byte(diff, 3) == Clamp(Byte(x, 3) - Byte(y, 3), 8)
  {
    var x0, x1, x2, x3 := SignedBytesOf(x);
    var y0, y1, y2, y3 := SignedBytesOf(y);
    var r := Ssat(x0 - y0, 8);
    var s := Ssat(x1 - y1, 8);
    var t := Ssat(x2 - y2, 8);
    var u := Ssat(x3 - y3, 8);
    diff := PackBytes(u, t, s, r);
    PackedClamps(u, t, s, r, x3 - y3, x2 - y2, x1 - y1, x0 - y0);
  }

  method QAdd16(x: int, y: int) returns (sum: int)
    requires IsInt32(x) && IsInt32(y)
    ensures forall i: nat :: i < 2 ==> Half(sum, i) == Clamp(Half(x, i) + Half(y, i), 16)
  {
    ExtractHalves(x);
    ExtractHalves(y);
    SmallLimits();
    var r := Wrap16(x);
    var s := Wrap16(y);
    r := Ssat(r + s, 16);
    s := Ssat(x / 0x1_0000 + y / 0x1_0000, 16);
    sum := PackHalves(s, r);
    PackedHalves(s, r);
  }

  method QSub16(x: int, y: int) returns (diff: int)
    requires IsInt32(x) && IsInt32(y)
    ensures forall i: nat :: i < 2 ==> Half(diff, i) == Clamp(Half(x, i) - Half(y, i), 16)
  {
    ExtractHalves(x);
    ExtractHalves(y);
    SmallLimits();
    var r := Wrap16(x);
    var s := Wrap16(y);
    r := Ssat(r - s, 16);
    s := Ssat(x / 0x1_0000 - y / 0x1_0000, 16);
    diff := PackHalves(s, r);
    PackedHalves(s, r);
  }

  lemma Wrap8Determines(a: nat, b: nat)
    requires a < 256 && b < 256 && Wrap8(a) == Wrap8(b)
    ensures a == b
  {
  }

  lemma Wrap16Determines(a: nat, b: nat)
    requires a < 0x1_0000 && b < 0x1_0000 && Wrap16(a) == Wrap16(b)
    ensures a == b
  {
  }

  lemma BytesDetermineWord(x: int, y: int)
    requires IsInt32(x) && IsInt32(y)
    requires Byte(x, 0) == Byte(y, 0) && Byte(x, 1) == Byte(y, 1) && Byte(x, 2) == Byte(y, 2) && Byte(x, 3) == Byte(y, 3)
    ensures x == y
  {
    var x0, x1, x2, x3 := Bytes(x);
    var y0, y1, y2, y3 := Bytes(y);
    Wrap8Determines(x0, y0);
    Wrap8Determines(x1, y1);
    Wrap8Determines(x2, y2);
  }

  lemma HalvesDetermineWord(x: int, y: int)
    requires IsInt32(x) && IsInt32(y)
    requires Half(x, 0) == Half(y, 0) && Half(x, 1) == Half(y, 1)
    ensures x == y
  {
    ExtractHalves(x);
    ExtractHalves(y);
    Wrap16Determines(x % 0x1_0000, y % 0x1_0000);
  }

  /** A word is determined by its bytes, and by its halfwords: the lane contracts above leave the
      results no freedom. */
  lemma LanesDetermineWord(x: int, y: int)
    requires IsInt32(x) && IsInt32(y)
    ensures x == y <==> forall i: nat :: i < 4 ==> Byte(x, i) == Byte(y, i)
    ensures x == y <==> forall i: nat :: i < 2 ==> Half(x, i) == Half(y, i)
  {
    if forall i: nat :: i < 4 ==> Byte(x, i) == Byte(y, i) { BytesDetermineWord(x, y); }
    if forall i: nat :: i < 2 ==> Half(x, i) == Half(y, i) { HalvesDetermineWord(x, y); }
  }

  // ---------- 64-bit helpers ----------

  // c ^ sign where sign is all zeros or all ones.
  function XorSign(c: int, sign: int): int
    requires sign == 0 || sign == -1
  {
    if sign == 0 then c else -c - 1
  }

  /** The overflow test compares the high word with the sign of the low word. */
  function ClipQ63ToQ31(x: int): int
    requires IsInt64(x)
  {
    var low := Wrap32(x);
    if Wrap32(x / TWO_32) != low / TWO_31
    then XorSign(0x7FFF_FFFF, Wrap32(x / TWO_63))
    else low
  }

  lemma ClipIsClamp(x: int)
    requires IsInt64(x)
    ensures ClipQ63ToQ31(x) == Clamp(x, 32)
  {
    SmallLimits();
    var high, rest := x / TWO_32, x % TWO_32;
    Wrap32Low(high, rest);
  }

  function QAdd(x: int, y: int): int
    requires IsInt32(x) && IsInt32(y)
  {
    ClipQ63ToQ31(x + y)
  }

  function QSub(x: int, y: int): int
    requires IsInt32(x) && IsInt32(y)
  {
    ClipQ63ToQ31(x - y)
  }

  function Mult32x64(x: int, y: int): int
    requires IsInt64(x) && IsInt32(y)
  {
    Wrap64(Wrap64(x % TWO_32 * y) / TWO_32 + Wrap64(x / TWO_32 * y))
  }

  // |a| <= bound and |y| <= 2^31.
  lemma ProductBounds(a: int, y: int, bound: int)
    requires 0 <= bound && -bound <= a <= bound && IsInt32(y)
    ensures -(bound * TWO_31) <= a * y <= bound * TWO_31
  {
    var size := if y < 0 then -y else y;
    ProductMonotone(a, bound, size);
    ProductMonotone(-bound, a, size);
    ProductMonotone(size, TWO_31, bound);
  }

  /** Neither half-product nor their sum overflows, and the two truncations together are one: the
      result is the floor of x * y / 2^32. */
  lemma Mult32x64IsFloor(x: int, y: int)
    requires IsInt64(x) && IsInt32(y)
    ensures Mult32x64(x, y) == x * y / TWO_32
  {
    var high, low := x / TWO_32, x % TWO_32;
    ProductBounds(low, y, TWO_32);
    ProductBounds(high, y, TWO_31);
    var p := low * y;
    assert x * y == high * y * TWO_32 + p;
    DivModUnique(x * y, TWO_32, high * y + p / TWO_32, p % TWO_32);
  }
}
