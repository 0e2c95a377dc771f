/** Interrupt priorities: encoding a preemption priority and a subpriority (core_cm4.h), and the
    byte lanes of the word-accessible priority registers on Cortex-M0 (core_cm0.h). */
module Nvic {
  import opened Words

  // ---------- Priority grouping, Cortex-M4 ----------

  function PreemptBits(group: nat, bits: nat): (r: nat)
    ensures r <= 7
  {
    var g := And(group, 7);
    GroupSmall(group);
    if 7 - g > bits then bits else 7 - g
  }

  function SubBits(group: nat, bits: nat): nat {
    var g := And(group, 7);
    if g + bits < 7 then 0 else Unsigned(Unsigned(g - 7) + bits)
  }

  // A p-bit field above an s-bit field.
  function Pack(p: nat, s: nat, high: nat, low: nat): nat {
    Or(And(high, Ones(p)) * Pow2(s), And(low, Ones(s)))
  }

  function Unpack(p: nat, s: nat, word: nat): (nat, nat) {
    (And(Shr(word, s), Ones(p)), And(word, Ones(s)))
  }

  function Encode(bits: nat, group: nat, preempt: nat, sub: nat): nat {
    Pack(PreemptBits(group, bits), SubBits(group, bits), preempt, sub)
  }

  function Decode(bits: nat, group: nat, priority: nat): (nat, nat) {
    Unpack(PreemptBits(group, bits), SubBits(group, bits), priority)
  }

  lemma GroupSmall(group: nat)
    ensures And(group, 7) == group % 8
  {
    AndOnes(group, 3);
  }

  /** The two fields share out the implemented bits, whatever the group. */
  lemma WidthsAddUp(group: nat, bits: nat)
    requires bits <= 8
    ensures PreemptBits(group, bits) + SubBits(group, bits) == bits
  {
    GroupSmall(group);
  }

  // Packing joins the fields, each cut to its width.
  lemma PackJoins(p: nat, s: nat, high: nat, low: nat)
    ensures Pack(p, s, high, low) == Join(Low(high, p), Low(low, s), s)
    ensures Low(low, s) < Pow2(s) && Low(high, p) < Pow2(p)
  {
    AndOnesLow(high, p);
    AndOnesLow(low, s);
    JoinParts(high, p);
    JoinParts(low, s);
    OrDisjoint(Low(high, p), Low(low, s), s);
    JoinValue(Low(high, p), Low(low, s), s);
  }

  lemma AndField(x: nat, k: nat)
    requires x < Pow2(k)
    ensures And(x, Ones(k)) == x && Ones(k) < Pow2(k)
  {
    AndOnesLow(x, k);
    LowFits(x, k);
  }

  lemma UnpackJoin(p: nat, s: nat, a: nat, b: nat)
    requires a < Pow2(p) && b < Pow2(s)
    ensures Unpack(p, s, Join(a, b, s)) == (a, b)
  {
    var word := Join(a, b, s);
    assert Shr(word, s) == a && Low(word, s) == b by { PartsOfJoin(a, b, s); }
    AndField(a, p);
    assert And(word, Ones(s)) == b by { AndOnesLow(word, s); }
  }

  lemma UnpackPack(p: nat, s: nat, high: nat, low: nat)
    ensures Unpack(p, s, Pack(p, s, high, low)) == (Low(high, p), Low(low, s))
    ensures Pack(p, s, high, low) < Pow2(p + s)
  {
    PackJoins(p, s, high, low);
    UnpackJoin(p, s, Low(high, p), Low(low, s));
    JoinFits(Low(high, p), Low(low, s), p, s);
  }

  lemma PackUnpack(p: nat, s: nat, word: nat)
    requires word < Pow2(p + s)
    ensures Pack(p, s, Unpack(p, s, word).0, Unpack(p, s, word).1) == word
  {
    var a, b := Shr(word, s), Low(word, s);
    ShrFits(word, s, p + s);
    JoinParts(word, s);
    AndOnesLow(a, p);
    AndOnesLow(word, s);
    LowFits(a, p);
    LowFits(b, s);
    PackJoins(p, s, a, b);
  }

  lemma FieldsFit(a: nat, b: nat, c: nat, d: nat)
    requires a < c && b < d
    ensures a * d + b < c * d
  {
    assert (a + 1) * d <= c * d;
  }

  lemma JoinFits(a: nat, b: nat, p: nat, s: nat)
    requires a < Pow2(p) && b < Pow2(s)
    ensures Join(a, b, s) < Pow2(p + s)
  {
    JoinValue(a, b, s);
    Pow2Adds(p, s);
    FieldsFit(a, b, Pow2(p), Pow2(s));
  }

  lemma PackOrders(p: nat, s: nat, high: nat, low: nat, high': nat, low': nat)
    requires high < Pow2(p) && high' < Pow2(p) && low < Pow2(s) && low' < Pow2(s)
    ensures Pack(p, s, high, low) < Pack(p, s, high', low') <==> high < high' || (high == high' && low < low')
  {
    PackJoins(p, s, high, low);
    PackJoins(p, s, high', low');
    LowFits(high, p);
    LowFits(high', p);
    LowFits(low, s);
    LowFits(low', s);
    JoinValue(high, low, s);
    JoinValue(high', low', s);
    if high < high' { FieldsFit(high, low, high', Pow2(s)); }
    if high' < high { FieldsFit(high', low', high, Pow2(s)); }
  }

  /** In figures: the preemption priority gets as many bits as the group grants and there are, the
      subpriority the others; an encoded priority is the one above the other. */
  lemma InFigures(bits: nat, group: nat, preempt: nat, sub: nat, priority: nat, p: nat)
    requires bits <= 8 && p == if bits <= 7 - group % 8 then bits else 7 - group % 8
    ensures PreemptBits(group, bits) == p && SubBits(group, bits) == bits - p
    ensures Encode(bits, group, preempt, sub) == preempt % Pow2(p) * Pow2(bits - p) + sub % Pow2(bits - p)
    ensures Decode(bits, group, priority) == (priority / Pow2(bits - p) % Pow2(p), priority % Pow2(bits - p))
  {
    var s := bits - p;
    WidthsInFigures(bits, group, p);
    PackInFigures(p, s, preempt, sub);
    UnpackInFigures(p, s, priority);
  }

  lemma WidthsInFigures(bits: nat, group: nat, p: nat)
    requires bits <= 8 && p == if bits <= 7 - group % 8 then bits else 7 - group % 8
    ensures PreemptBits(group, bits) == p && SubBits(group, bits) == bits - p
  {
    GroupSmall(group);
  }

  lemma PackInFigures(p: nat, s: nat, high: nat, low: nat)
    ensures Pack(p, s, high, low) == high % Pow2(p) * Pow2(s) + low % Pow2(s)
  {
    PackJoins(p, s, high, low);
    LowIsMod(high, p);
    LowIsMod(low, s);
    JoinValue(Low(high, p), Low(low, s), s);
  }

  lemma UnpackInFigures(p: nat, s: nat, word: nat)
    ensures Unpack(p, s, word) == (word / Pow2(s) % Pow2(p), word % Pow2(s))
  {
    ShrIsDiv(word, s);
    AndOnes(Shr(word, s), p);
    AndOnes(word, s);
  }

  /** Decoding an encoded priority gives both fields, cut to their widths; the encoding uses the
      implemented bits only. */
  lemma DecodeEncode(bits: nat, group: nat, preempt: nat, sub: nat)
    requires bits <= 8
    ensures Decode(bits, group, Encode(bits, group, preempt, sub))
         == (preempt % Pow2(PreemptBits(group, bits)), sub % Pow2(SubBits(group, bits)))
    ensures Encode(bits, group, preempt, sub) < Pow2(bits)
  {
    UnpackPack(PreemptBits(group, bits), SubBits(group, bits), preempt, sub);
    WidthsAddUp(group, bits);
    LowIsMod(preempt, PreemptBits(group, bits));
    LowIsMod(sub, SubBits(group, bits));
  }

  /** Encoding a decoded priority gives it back: with DecodeEncode, a bijection between pairs of
      fields and [0, 2^bits). */
  lemma EncodeDecode(bits: nat, group: nat, priority: nat)
    requires bits <= 8 && priority < Pow2(bits)
    ensures var fields := Decode(bits, group, priority);
            Encode(bits, group, fields.0, fields.1) == priority
  {
    var p, s := PreemptBits(group, bits), SubBits(group, bits);
    assert p + s == bits by { WidthsAddUp(group, bits); }
    PackUnpack(p, s, priority);
  }

  /** Priorities compare as pairs: the preemption priority decides, then the subpriority. */
  lemma EncodeOrders(bits: nat, group: nat, preempt: nat, sub: nat, preempt': nat, sub': nat)
    requires preempt < Pow2(PreemptBits(group, bits)) && preempt' < Pow2(PreemptBits(group, bits))
    requires sub < Pow2(SubBits(group, bits)) && sub' < Pow2(SubBits(group, bits))
    ensures Encode(bits, group, preempt, sub) < Encode(bits, group, preempt', sub')
       <==> preempt < preempt' || (preempt == preempt' && sub < sub')
  {
    PackOrders(PreemptBits(group, bits), SubBits(group, bits), preempt, sub, preempt', sub');
  }

  // ---------- Priority registers, Cortex-M0 ----------

  // Eight system handlers below zero have priority fields, and 32 device interrupts.
  predicate HasPriority(irq: int) {
    -8 <= irq < 32
  }

  // _BIT_SHIFT
  function BitShift(irq: int): nat {
    And(Unsigned(irq), 3) * 8
  }

  // _SHP_IDX
  function ShpIndex(irq: int): nat {
    Unsigned(And(Unsigned(irq), 15) - 8) / 4
  }

  // _IP_IDX
  function IpIndex(irq: int): nat {
    Unsigned(irq) / 4
  }

  lemma LowBits(irq: int)
    ensures And(Unsigned(irq), 3) == irq % 4 && And(Unsigned(irq), 15) == irq % 16
  {
    AndOnes(Unsigned(irq), 2);
    AndOnes(Unsigned(irq), 4);
    var wraps := irq / TWO_32;
    assert Unsigned(irq) == irq - wraps * 0x1_0000_0000;
    DivModUnique(Unsigned(irq), 4, irq / 4 - wraps * 0x4000_0000, irq % 4);
    DivModUnique(Unsigned(irq), 16, irq / 16 - wraps * 0x1000_0000, irq % 16);
  }

  lemma UnsignedSmall(x: int)
    ensures 0 <= x < TWO_32 ==> Unsigned(x) == x
    ensures -TWO_32 <= x < 0 ==> Unsigned(x) == x + TWO_32
  {
  }

  /** Where an interrupt's byte is: registers and lanes are those of an array of bytes. */
  lemma Located(irq: int)
    requires -8 <= irq < 32
    ensures HasPriority(irq) && BitShift(irq) == 8 * (irq % 4)
    ensures irq < 0 ==> ShpIndex(irq) == (irq + 8) / 4 && ShpIndex(irq) < 2
    ensures irq >= 0 ==> IpIndex(irq) == irq / 4 && IpIndex(irq) < 8
  {
    LowBits(irq);
    if irq < 0 {
      DivModUnique(irq, 16, -1, irq + 16);
      UnsignedSmall(irq + 8);
    } else {
      UnsignedSmall(irq);
    }
  }

  // Below -8 (NMI and HardFault among them) the index computation wraps far out of the array.
  lemma NoPriorityField(irq: int)
    requires -16 <= irq < -8
    ensures ShpIndex(irq) >= 0x3FFF_FFFE
  {
    LowBits(irq);
    DivModUnique(irq, 16, -1, irq + 16);
    UnsignedSmall(irq + 8);
  }

  function Lane(word: nat, shift: nat): nat {
    And(Shr(word, shift), 255)
  }

  // ~(0xFF << shift)
  function LaneMask(shift: nat): nat
    requires shift <= 24
  {
    MaskShape(shift);
    TWO_32 - 1 - 255 * Pow2(shift)
  }

  // (word & ~(0xFF << shift)) | (value << shift)
  function WithLane(word: nat, shift: nat, value: nat): nat
    requires shift <= 24
  {
    Or(And(word, LaneMask(shift)), value * Pow2(shift))
  }

  // The low byte of a 32-bit word.
  function LowByte(x: nat): nat {
    And(Unsigned(x), 255)
  }

  function Field(bits: nat, priority: nat): nat
    requires bits <= 8
  {
    LowByte(priority * Pow2(8 - bits))
  }

  // ---------- Lanes ----------

  // The word with byte `value` between `high` and the `shift` low bits.
  function Around(high: nat, value: nat, low: nat, shift: nat): nat {
    Join(Join(high, value, 8), low, shift)
  }

  // The bits above the byte, the byte, and the bits below it.
  function Above(word: nat, shift: nat): nat {
    Shr(Shr(word, shift), 8)
  }

  function ByteAt(word: nat, shift: nat): nat {
    Low(Shr(word, shift), 8)
  }

  lemma TakeApart(word: nat, shift: nat)
    ensures word == Around(Above(word, shift), ByteAt(word, shift), Low(word, shift), shift)
    ensures ByteAt(word, shift) < Pow2(8) && Low(word, shift) < Pow2(shift)
    ensures Lane(word, shift) == ByteAt(word, shift)
  {
    JoinParts(word, shift);
    JoinParts(Shr(word, shift), 8);
    PowersOfTwo();
    AndOnesLow(Shr(word, shift), 8);
  }

  lemma OrZero(a: nat)
    ensures Or(a, 0) == a && Or(0, a) == a
  {
  }

  lemma {:induction false} AndZero(r: nat, k: nat)
    ensures And(r, 0) == 0 && And(0, r) == 0
  {
  }

  lemma MaskAlgebra(a: int, b: int)
    requires a * b * 256 == TWO_32 && a > 0 && b > 0
    ensures (a - 1) * 256 * b + (b - 1) == TWO_32 - 1 - 255 * b
    ensures 255 * b < TWO_32
  {
    assert (a - 1) * b >= 0;
    assert (a - 1) * 256 * b == a * b * 256 - 256 * b;
  }

  // ~(0xFF << shift): ones above, a zero byte, ones below.
  lemma MaskShape(shift: nat)
    requires shift <= 24
    ensures 255 * Pow2(shift) < TWO_32
    ensures TWO_32 - 1 - 255 * Pow2(shift) == Around(Ones(24 - shift), 0, Ones(shift), shift)
  {
    var a, b := Pow2(24 - shift), Pow2(shift);
    assert a * b * 256 == TWO_32 by {
      PowersOfTwo();
      Pow2Adds(24 - shift, shift);
      Pow2Adds(24, 8);
    }
    MaskAlgebra(a, b);
    assert Join(a - 1, 0, 8) == (a - 1) * 256 by { PowersOfTwo(); JoinValue(a - 1, 0, 8); }
    JoinValue((a - 1) * 256, b - 1, shift);
  }

  // Masking a word byte-wise.
  lemma ClearAround(high: nat, value: nat, low: nat, up: nat, shift: nat)
    requires high < Pow2(up) && value < Pow2(8) && low < Pow2(shift)
    ensures And(Around(high, value, low, shift), Around(Ones(up), 0, Ones(shift), shift)) == Around(high, 0, low, shift)
  {
    AndField(high, up);
    AndField(low, shift);
    AndZero(value, 8);
    var word, mask := Join(high, value, 8), Join(Ones(up), 0, 8);
    assert And(word, mask) == Join(high, 0, 8) by { AndJoined(high, value, Ones(up), 0, 8); }
    assert And(Join(word, low, shift), Join(mask, Ones(shift), shift)) == Join(Join(high, 0, 8), low, shift) by {
      AndJoined(word, low, mask, Ones(shift), shift);
    }
  }

  lemma OrAround(high: nat, value: nat, low: nat, shift: nat)
    requires value < Pow2(8) && low < Pow2(shift)
    ensures Or(Around(high, 0, low, shift), value * Pow2(shift)) == Around(high, value, low, shift)
  {
    JoinValue(value, 0, shift);
    JoinValue(0, value, 8);
    OrJoined(Join(high, 0, 8), low, Join(0, value, 8), 0, shift);
    OrJoined(high, 0, 0, value, 8);
    OrZero(high);
    OrZero(value);
    OrZero(low);
  }

  lemma PartsFit(word: nat, shift: nat)
    requires IsUint32(word) && shift <= 24
    ensures Above(word, shift) < Pow2(24 - shift)
  {
    PowersOfTwo();
    ShrFits(word, shift, 32);
    ShrFits(Shr(word, shift), 8, 32 - shift);
  }

  lemma AroundFits(high: nat, value: nat, low: nat, shift: nat)
    requires shift <= 24 && high < Pow2(24 - shift) && value < Pow2(8) && low < Pow2(shift)
    ensures IsUint32(Around(high, value, low, shift))
  {
    JoinFits(high, value, 24 - shift, 8);
    JoinFits(Join(high, value, 8), low, 32 - shift, shift);
    PowersOfTwo();
  }

  /** Replacing one lane leaves the bits above and below it alone. */
  lemma WithLaneValue(word: nat, shift: nat, value: nat)
    requires IsUint32(word) && shift <= 24 && value < Pow2(8)
    ensures WithLane(word, shift, value) == Around(Above(word, shift), value, Low(word, shift), shift)
    ensures IsUint32(WithLane(word, shift, value))
  {
    var high, byte, low := Above(word, shift), ByteAt(word, shift), Low(word, shift);
    PartsFit(word, shift);
    TakeApart(word, shift);
    assert And(word, LaneMask(shift)) == Around(high, 0, low, shift) by {
      assert LaneMask(shift) == Around(Ones(24 - shift), 0, Ones(shift), shift) by { MaskShape(shift); }
      ClearAround(high, byte, low, 24 - shift, shift);
    }
    OrAround(high, value, low, shift);
    AroundFits(high, value, low, shift);
  }

  lemma {:induction false} ShrAdds(x: nat, a: nat, b: nat)
    ensures Shr(x, a + b) == Shr(Shr(x, a), b)
    decreases a
  {
    if a > 0 { ShrAdds(x / 2, a - 1, b); }
  }

  // A field inside the low part of a joined word.
  lemma {:induction false} FieldBelow(a: nat, r: nat, k: nat, j: nat, n: nat)
    requires r < Pow2(k) && j + n <= k
    ensures Low(Shr(Join(a, r, k), j), n) == Low(Shr(r, j), n)
    decreases k
  {
    if k > 0 {
      Halves(r, k);
      if j > 0 {
        FieldBelow(a, r / 2, k - 1, j - 1, n);
      } else if n > 0 {
        FieldBelow(a, r / 2, k - 1, 0, n - 1);
      }
    }
  }

  lemma OtherLane(high: nat, value: nat, low: nat, shift: nat, other: nat)
    requires value < Pow2(8) && low < Pow2(shift)
    ensures other >= shift + 8 ==> ByteAt(Around(high, value, low, shift), other) == Low(Shr(high, other - shift - 8), 8)
    ensures other + 8 <= shift ==> ByteAt(Around(high, value, low, shift), other) == Low(Shr(low, other), 8)
    ensures other == shift ==> ByteAt(Around(high, value, low, shift), other) == value
  {
    PartsOfJoin(Join(high, value, 8), low, shift);
    PartsOfJoin(high, value, 8);
    if other >= shift + 8 {
      ShrAdds(Around(high, value, low, shift), shift, other - shift);
      ShrAdds(Join(high, value, 8), 8, other - shift - 8);
    } else if other + 8 <= shift {
      FieldBelow(Join(high, value, 8), low, shift, other, 8);
    }
  }

  predicate IsLane(shift: nat) {
    shift == 0 || shift == 8 || shift == 16 || shift == 24
  }

  lemma LaneOfAround(high: nat, value: nat, low: nat, shift: nat, other: nat)
    requires IsLane(shift) && IsLane(other) && value < Pow2(8) && low < Pow2(shift)
    ensures Lane(Around(high, value, low, shift), other)
         == if other == shift then value
            else if other > shift then Low(Shr(high, other - shift - 8), 8)
            else Low(Shr(low, other), 8)
  {
    TakeApart(Around(high, value, low, shift), other);
    OtherLane(high, value, low, shift, other);
  }

  /** A write to one lane is read back there and seen nowhere else. */
  lemma LaneAfterWrite(word: nat, shift: nat, value: nat, other: nat)
    requires IsUint32(word) && IsLane(shift) && IsLane(other) && value < Pow2(8)
    ensures Lane(WithLane(word, shift, value), other) == if other == shift then value else Lane(word, other)
  {
    var high, byte, low := Above(word, shift), ByteAt(word, shift), Low(word, shift);
    assert byte < Pow2(8) && low < Pow2(shift) && word == Around(high, byte, low, shift) by { TakeApart(word, shift); }
    assert WithLane(word, shift, value) == Around(high, value, low, shift) by { WithLaneValue(word, shift, value); }
    LaneOfAround(high, byte, low, shift, other);
    LaneOfAround(high, value, low, shift, other);
  }

  // ---------- The registers ----------

  // Conversion to 32 bits keeps the low byte.
  lemma LowByteIs(x: nat, q: int, low: nat)
    requires x == q * 256 + low && low < 256
    ensures LowByte(x) == low
  {
    var wraps := x / TWO_32;
    DivModUnique(x - wraps * TWO_32, 256, q - wraps * 0x100_0000, low);
    PowersOfTwo();
    AndOnes(Unsigned(x), 8);
  }

  lemma ScaledLow(q: nat, r: nat, p: nat, unused: nat)
    requires p * unused == 256 && r < p
    ensures LowByte((q * p + r) * unused) == r * unused && r * unused < 256
  {
    assert (q * p + r) * unused == q * 256 + r * unused by {
      assert q * p * unused == q * (p * unused);
    }
    FieldsFit(r, 0, p, unused);
    LowByteIs((q * p + r) * unused, q, r * unused);
  }

  lemma ShrShifted(r: nat, k: nat)
    ensures Shr(r * Pow2(k), k) == r
  {
    JoinValue(r, 0, k);
    PartsOfJoin(r, 0, k);
  }

  /** The byte for a priority has it in its top bits, cut to them, and gives it back. */
  lemma FieldValue(bits: nat, priority: nat)
    requires bits <= 8
    ensures Field(bits, priority) == priority % Pow2(bits) * Pow2(8 - bits) && Field(bits, priority) < Pow2(8)
    ensures Shr(Field(bits, priority), 8 - bits) == priority % Pow2(bits)
  {
    var p, unused := Pow2(bits), Pow2(8 - bits);
    var q, r := priority / p, priority % p;
    assert p * unused == 256 && Pow2(8) == 256 by { Pow2Adds(bits, 8 - bits); PowersOfTwo(); }
    assert priority == q * p + r;
    ScaledLow(q, r, p, unused);
    ShrShifted(r, 8 - bits);
  }

  // The read-modify-write of one word.
  method WriteLane(words: array<nat>, index: nat, shift: nat, field: nat)
    requires index < words.Length && IsLane(shift) && field < Pow2(8)
    requires forall j :: 0 <= j < words.Length ==> IsUint32(words[j])
    modifies words
    ensures forall j :: 0 <= j < words.Length ==> IsUint32(words[j])
    ensures forall j, other :: 0 <= j < words.Length && IsLane(other) ==>
            Lane(words[j], other) == if j == index && other == shift then field else old(Lane(words[j], other))
  {
    WithLaneValue(words[index], shift, field);
    ghost var before := words[index];
    words[index] := WithLane(words[index], shift, field);
    forall other | IsLane(other)
      ensures Lane(words[index], other) == if other == shift then field else Lane(before, other)
    {
      LaneAfterWrite(before, shift, field, other);
    }
  }

  lemma LanesDiffer(irq: int, other: int)
    requires HasPriority(irq) && HasPriority(other)
    ensures IsLane(BitShift(irq)) && IsLane(BitShift(other))
    ensures irq < 0 && other < 0 ==>
            (irq == other <==> ShpIndex(irq) == ShpIndex(other) && BitShift(irq) == BitShift(other))
    ensures irq >= 0 && other >= 0 ==>
            (irq == other <==> IpIndex(irq) == IpIndex(other) && BitShift(irq) == BitShift(other))
  {
    Located(irq);
    Located(other);
  }

  class PriorityRegisters {
    const ip: array<nat>
    const shp: array<nat>

    ghost predicate Valid()
      reads ip, shp
    {
      && ip.Length == 8 && shp.Length == 2 && ip != shp
      && (forall i :: 0 <= i < 8 ==> IsUint32(ip[i])) && (forall i :: 0 <= i < 2 ==> IsUint32(shp[i]))
    }

    /** The registers as a map from interrupts to bytes. */
    ghost function ByteOf(irq: int): nat
      requires Valid() && HasPriority(irq)
      reads ip, shp
    {
      Located(irq);
      if irq < 0 then Lane(shp[ShpIndex(irq)], BitShift(irq)) else Lane(ip[IpIndex(irq)], BitShift(irq))
    }

    constructor ()
      ensures Valid() && fresh(ip) && fresh(shp)
    {
      ip := new nat[8](_ => 0);
      shp := new nat[2](_ => 0);
    }

    /** Sets one interrupt's byte, the priority in its top `bits` bits, and no other's. */
    method SetPriority(irq: int, priority: nat, bits: nat)
      requires Valid() && -8 <= irq < 32 && bits <= 8 && IsUint32(priority)
      modifies ip, shp
      ensures Valid()
      ensures forall i :: HasPriority(i) ==>
              ByteOf(i) == if i == irq then priority % Pow2(bits) * Pow2(8 - bits) else old(ByteOf(i))
    {
      Located(irq);
      FieldValue(bits, priority);
      LanesDiffer(irq, irq);
      ghost var field := Field(bits, priority);
      if irq < 0 {
        WriteLane(shp, ShpIndex(irq), BitShift(irq), Field(bits, priority));
      } else {
        WriteLane(ip, IpIndex(irq), BitShift(irq), Field(bits, priority));
      }
      forall i | HasPriority(i) ensures ByteOf(i) == if i == irq then field else old(ByteOf(i)) {
        LanesDiffer(irq, i);
        Located(i);
      }
    }

    /** Reads the implemented bits of one interrupt's byte. */
    method GetPriority(irq: int, bits: nat) returns (priority: nat)
      requires Valid() && -8 <= irq < 32 && bits <= 8
      ensures priority == ByteOf(irq) / Pow2(8 - bits)
    {
      Located(irq);
      ShrIsDiv(ByteOf(irq), 8 - bits);
      if irq < 0 {
        priority := Shr(Lane(shp[ShpIndex(irq)], BitShift(irq)), 8 - bits);
      } else {
        priority := Shr(Lane(ip[IpIndex(irq)], BitShift(irq)), 8 - bits);
      }
    }
  }
}
