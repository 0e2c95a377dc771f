/** The writers of core_ca_mmu.h for the short-descriptor translation tables of ARMv7-A, against the
    table walk of section B3.5 of the ARMv7-A Architecture Reference Manual (ARM DDI 0406C). */
module PageTable {
  import opened Words

  const OFFSET_1M: int := 0x10_0000
  const OFFSET_64K: int := 0x1_0000
  const OFFSET_4K: int := 0x1000
  const ENTRIES_L1: int := 0x1000
  const ENTRIES_L2: int := 0x100

  // ---------- The walk ----------

  /** The first-level table and, by their addresses, the second-level tables. */
  datatype Tables = Tables(l1: seq<int>, l2: map<int, seq<int>>)

  predicate IsTables(t: Tables) {
    |t.l1| == ENTRIES_L1 && forall a :: a in t.l2 ==> |t.l2[a]| == ENTRIES_L2
  }

  datatype Translation =
    | Fault
    | Reserved
    | Supersection
    | Section(address: int, attributes: int)
    | LargePage(address: int, attributes1: int, attributes2: int)
    | SmallPage(address: int, attributes1: int, attributes2: int)

  /** What a second-level entry says of the virtual address va. */
  function WalkL2(attributes1: int, e: int, va: int): Translation {
    if e % 4 == 0 then Fault
    else if e % 4 == 1 then LargePage(e / OFFSET_64K * OFFSET_64K + va % OFFSET_64K, attributes1, e % OFFSET_64K)
    else SmallPage(e / OFFSET_4K * OFFSET_4K + va % OFFSET_4K, attributes1, e % OFFSET_4K)
  }

  function L1Index(va: int): int {
    va / OFFSET_1M
  }

  function L2Index(va: int): int {
    va / OFFSET_4K % ENTRIES_L2
  }

  /** The walk for the virtual address va. */
  function Walk(t: Tables, va: int): Translation
    requires IsTables(t) && IsUint32(va)
  {
    var e := t.l1[L1Index(va)];
    if e % 4 == 0 then Fault
    else if e % 4 == 1 then
      var table := e / 0x400 * 0x400;
      if table in t.l2 then WalkL2(e % 0x400, t.l2[table][L2Index(va)], va) else Fault
    else if e % 4 == 2 then
      if e / 0x4_0000 % 2 == 1 then Supersection
      else Section(e / OFFSET_1M * OFFSET_1M + va % OFFSET_1M, e % OFFSET_1M)
    else Reserved
  }

  // ---------- The writers ----------

  // A table with n entries from position o on replaced by e, e + step, e + 2 * step, ..., each
  // written `times` times.
  function Filled(s: seq<int>, o: int, n: nat, e: int, step: int, times: nat): (r: seq<int>)
    requires times > 0
    ensures |r| == |s|
  {
    seq(|s|, j requires 0 <= j < |s| => if o <= j < o + n then (e + (j - o) / times * step) % TWO_32 else s[j])
  }

  lemma FilledAt(s: seq<int>, o: int, n: nat, e: int, step: int, times: nat, j: nat)
    requires times > 0 && j < |s|
    ensures Filled(s, o, n, e, step, times)[j] == if o <= j < o + n then (e + (j - o) / times * step) % TWO_32 else s[j]
  {
  }

  lemma FilledNext(s: seq<int>, o: nat, n: nat, e: int, step: int, times: nat)
    requires times > 0 && o + n < |s|
    ensures Filled(s, o, n + 1, e, step, times) == Filled(s, o, n, e, step, times)[o + n := (e + n / times * step) % TWO_32]
  {
  }

  lemma NextEntry(e: int, i: nat, step: int)
    ensures ((e + i * step) % TWO_32 + step) % TWO_32 == (e + (i + 1) * step) % TWO_32
  {
    ModAdds(e + i * step, step, TWO_32);
    assert e + i * step + step == e + (i + 1) * step;
  }

  // An address cut to a multiple of 2^k, and the descriptor below.
  function Entry(address: nat, mask: nat, descriptor: nat): nat {
    Or(And(address, mask), descriptor)
  }

  /** __TTSection. */
  method TTSection(ttb: array<int>, baseAddress: nat, count: nat, descriptor: nat)
    requires IsUint32(baseAddress) && IsUint32(descriptor)
    requires L1Index(baseAddress) + count <= ttb.Length
    modifies ttb
    ensures ttb[..] == Filled(old(ttb[..]), L1Index(baseAddress), count, Entry(baseAddress, 0xFFF0_0000, descriptor), OFFSET_1M, 1)
  {
    ghost var was, e := ttb[..], Entry(baseAddress, 0xFFF0_0000, descriptor);
    var offset := baseAddress / OFFSET_1M;
    var entry := Or(And(baseAddress, 0xFFF0_0000), descriptor) % TWO_32;
    var i := 0;
    while i < count
      invariant 0 <= i <= count
      invariant entry == (e + i * OFFSET_1M) % TWO_32
      invariant ttb[..] == Filled(was, offset, i, e, OFFSET_1M, 1)
    {
      FilledNext(was, offset, i, e, OFFSET_1M, 1);
      NextEntry(e, i, OFFSET_1M);
      ttb[offset + i] := entry;
      entry := (entry + OFFSET_1M) % TWO_32;
      i := i + 1;
    }
  }

  lemma MaskedL2Index(address: nat)
    ensures And(address, 0xF_F000) / OFFSET_4K == L2Index(address)
  {
    var h, r := address / OFFSET_4K, address % OFFSET_4K;
    assert Pow2(12) == OFFSET_4K && Pow2(8) == 0x100 by {
      Pow2Adds(8, 4);
      PowersOfTwo();
    }
    AndSplit(h, r, 0xFF, 0, 12);
    AndOnes(h, 8);
  }

  /** __TTPage_4k; the second-level table is at l2Address. */
  method TTPage4k(ttb: array<int>, baseAddress: nat, count: nat, descriptor1: nat, ttbL2: array<int>, l2Address: nat, descriptor2: nat)
    requires IsUint32(baseAddress) && IsUint32(descriptor1) && IsUint32(descriptor2) && IsUint32(l2Address) && ttb != ttbL2
    requires L1Index(baseAddress) < ttb.Length && L2Index(baseAddress) + count <= ttbL2.Length
    modifies ttb, ttbL2
    ensures ttb[..] == old(ttb[..])[L1Index(baseAddress) := Entry(l2Address, 0xFFFF_FC00, descriptor1)]
    ensures ttbL2[..] == Filled(old(ttbL2[..]), L2Index(baseAddress), count, Entry(baseAddress, 0xFFFF_F000, descriptor2), OFFSET_4K, 1)
  {
    ghost var was, e := ttbL2[..], Entry(baseAddress, 0xFFFF_F000, descriptor2);
    ttb[baseAddress / OFFSET_1M] := Or(And(l2Address, 0xFFFF_FC00), descriptor1);
    var offset2 := And(baseAddress, 0xF_F000) / OFFSET_4K;
    MaskedL2Index(baseAddress);
    var entry2 := Or(And(baseAddress, 0xFFFF_F000), descriptor2) % TWO_32;
    var i := 0;
    while i < count
      invariant 0 <= i <= count
      invariant ttb[..] == old(ttb[..])[L1Index(baseAddress) := Entry(l2Address, 0xFFFF_FC00, descriptor1)]
      invariant entry2 == (e + i * OFFSET_4K) % TWO_32
      invariant ttbL2[..] == Filled(was, offset2, i, e, OFFSET_4K, 1)
    {
      FilledNext(was, offset2, i, e, OFFSET_4K, 1);
      NextEntry(e, i, OFFSET_4K);
      ttbL2[offset2 + i] := entry2;
      entry2 := (entry2 + OFFSET_4K) % TWO_32;
      i := i + 1;
    }
  }

  /** __TTPage_64k: sixteen equal entries for each page. */
  method TTPage64k(ttb: array<int>, baseAddress: nat, count: nat, descriptor1: nat, ttbL2: array<int>, l2Address: nat, descriptor2: nat)
    requires IsUint32(baseAddress) && IsUint32(descriptor1) && IsUint32(descriptor2) && IsUint32(l2Address) && ttb != ttbL2
    requires L1Index(baseAddress) < ttb.Length && L2Index(baseAddress) + 16 * count <= ttbL2.Length
    modifies ttb, ttbL2
    ensures ttb[..] == old(ttb[..])[L1Index(baseAddress) := Entry(l2Address, 0xFFFF_FC00, descriptor1)]
    ensures ttbL2[..] == Filled(old(ttbL2[..]), L2Index(baseAddress), 16 * count, Entry(baseAddress, 0xFFFF_0000, descriptor2), OFFSET_64K, 16)
  {
    ghost var was, e := ttbL2[..], Entry(baseAddress, 0xFFFF_0000, descriptor2);
    ttb[baseAddress / OFFSET_1M] := Or(And(l2Address, 0xFFFF_FC00), descriptor1);
    var offset2 := And(baseAddress, 0xF_F000) / OFFSET_4K;
    MaskedL2Index(baseAddress);
    var entry2 := Or(And(baseAddress, 0xFFFF_0000), descriptor2) % TWO_32;
    var i := 0;
    while i < count
      invariant 0 <= i <= count
      invariant ttb[..] == old(ttb[..])[L1Index(baseAddress) := Entry(l2Address, 0xFFFF_FC00, descriptor1)]
      invariant entry2 == (e + i * OFFSET_64K) % TWO_32
      invariant ttbL2[..] == Filled(was, offset2, 16 * i, e, OFFSET_64K, 16)
    {
      var j := 0;
      while j < 16
        invariant 0 <= j <= 16
        invariant ttb[..] == old(ttb[..])[L1Index(baseAddress) := Entry(l2Address, 0xFFFF_FC00, descriptor1)]
        invariant ttbL2[..] == Filled(was, offset2, 16 * i + j, e, OFFSET_64K, 16)
      {
        FilledNext(was, offset2, 16 * i + j, e, OFFSET_64K, 16);
        DivModUnique(16 * i + j, 16, i, j);
        ttbL2[offset2 + 16 * i + j] := entry2;
        j := j + 1;
      }
      NextEntry(e, i, OFFSET_64K);
      entry2 := (entry2 + OFFSET_64K) % TWO_32;
      i := i + 1;
    }
  }

  // ---------- What the entries say ----------

  lemma EntryOf(address: nat, q: nat, r: nat, k: nat, p: nat, mask: nat, descriptor: nat)
    requires k <= 32 && p == Pow2(k) && mask == Pow2(32) - p
    requires address == q * p + r && q < Pow2(32 - k) && r < p && descriptor < p
    ensures Entry(address, mask, descriptor) == q * p + descriptor
  {
    Masked(address, q, r, k, p, mask);
    OrDisjoint(q, descriptor, k);
  }

  lemma Masked(address: nat, q: nat, r: nat, k: nat, p: nat, mask: nat)
    requires k <= 32 && p == Pow2(k) && mask == Pow2(32) - p
    requires address == q * p + r && q < Pow2(32 - k) && r < p
    ensures And(address, mask) == q * p
  {
    assert address == q * Pow2(k) + r && mask == Pow2(32) - Pow2(k);
    assert And(q * Pow2(k) + r, Pow2(32) - Pow2(k)) == q * Pow2(k) by { AndHigh(q, r, k, 32); }
  }

  lemma FieldSizes()
    ensures Pow2(10) == 0x400 && Pow2(12) == OFFSET_4K && Pow2(16) == OFFSET_64K && Pow2(20) == OFFSET_1M
    ensures Pow2(22) == 0x40_0000 && Pow2(32) == TWO_32
  {
    PowersOfTwo();
    Pow2Adds(8, 2);
    Pow2Adds(8, 4);
    Pow2Adds(16, 4);
    Pow2Adds(16, 6);
  }

  /** A descriptor without address bits leaves the address above it as it is. */
  lemma EntryValues(address: nat, descriptor: nat)
    requires IsUint32(address)
    ensures descriptor < OFFSET_1M ==> Entry(address, 0xFFF0_0000, descriptor) == address / OFFSET_1M * OFFSET_1M + descriptor
    ensures descriptor < OFFSET_64K ==> Entry(address, 0xFFFF_0000, descriptor) == address / OFFSET_64K * OFFSET_64K + descriptor
    ensures descriptor < OFFSET_4K ==> Entry(address, 0xFFFF_F000, descriptor) == address / OFFSET_4K * OFFSET_4K + descriptor
    ensures descriptor < 0x400 ==> Entry(address, 0xFFFF_FC00, descriptor) == address / 0x400 * 0x400 + descriptor
  {
    FieldSizes();
    if descriptor < OFFSET_1M { EntryOf(address, address / OFFSET_1M, address % OFFSET_1M, 20, OFFSET_1M, 0xFFF0_0000, descriptor); }
    if descriptor < OFFSET_64K { EntryOf(address, address / OFFSET_64K, address % OFFSET_64K, 16, OFFSET_64K, 0xFFFF_0000, descriptor); }
    if descriptor < OFFSET_4K { EntryOf(address, address / OFFSET_4K, address % OFFSET_4K, 12, OFFSET_4K, 0xFFFF_F000, descriptor); }
    if descriptor < 0x400 { EntryOf(address, address / 0x400, address % 0x400, 10, 0x400, 0xFFFF_FC00, descriptor); }
  }

  // Descriptors of the three kinds, free of address bits.
  predicate IsSectionDescriptor(d: int) {
    0 <= d < OFFSET_1M && d % 4 == 2 && d / 0x4_0000 % 2 == 0
  }

  predicate IsTableDescriptor(d: int) {
    0 <= d < 0x400 && d % 4 == 1
  }

  predicate IsSmallPageDescriptor(d: int) {
    0 <= d < OFFSET_4K && d / 2 % 2 == 1
  }

  predicate IsLargePageDescriptor(d: int) {
    0 <= d < OFFSET_64K && d % 4 == 1
  }

  // ---------- Sections ----------

  // Taking a section entry for megabyte m apart again.
  lemma SectionFields(m: nat, d: int)
    requires 0 <= d < OFFSET_1M
    ensures var e := m * OFFSET_1M + d;
            e % 4 == d % 4 && e / 0x4_0000 % 2 == d / 0x4_0000 % 2 && e / OFFSET_1M == m && e % OFFSET_1M == d
  {
    var e := m * OFFSET_1M + d;
    DivModUnique(e, OFFSET_1M, m, d);
    DivModUnique(e, 0x4_0000, m * 4 + d / 0x4_0000, d % 0x4_0000);
    DivModUnique(m * 4 + d / 0x4_0000, 2, m * 2 + d / 0x4_0000 / 2, d / 0x4_0000 % 2);
    DivModUnique(e, 4, m * 0x4_0000 + d / 4, d % 4);
  }

  lemma SectionSteps(m: nat, n: nat, d: nat)
    requires d < OFFSET_1M && m + n < ENTRIES_L1
    ensures (m * OFFSET_1M + d + n * OFFSET_1M) % TWO_32 == (m + n) * OFFSET_1M + d
  {
  }

  /** After __TTSection each covered address is mapped to itself with the attributes asked for, and
      all others as before. */
  lemma SectionIdentity(t: Tables, baseAddress: nat, count: nat, d: nat, va: int)
    requires IsTables(t) && IsUint32(baseAddress) && IsUint32(va) && IsSectionDescriptor(d)
    requires L1Index(baseAddress) + count <= ENTRIES_L1
    ensures var t' := t.(l1 := Filled(t.l1, L1Index(baseAddress), count, Entry(baseAddress, 0xFFF0_0000, d), OFFSET_1M, 1));
            Walk(t', va) == if L1Index(baseAddress) <= L1Index(va) < L1Index(baseAddress) + count then Section(va, d) else Walk(t, va)
  {
    var o := L1Index(baseAddress);
    EntryValues(baseAddress, d);
    if o <= L1Index(va) < o + count {
      var m := L1Index(va);
      SectionFields(m, d);
      SectionSteps(o, m - o, d);
    }
  }

  /** Among the descriptors without address bits, exactly those with type 2 and bit 18 clear map a
      covered address to itself as a section. */
  lemma SectionIdentityIff(t: Tables, baseAddress: nat, count: nat, d: nat, va: int)
    requires IsTables(t) && IsUint32(baseAddress) && IsUint32(va) && d < 0x10_0000
    requires L1Index(baseAddress) + count <= 4096 && L1Index(baseAddress) <= L1Index(va) < L1Index(baseAddress) + count
    ensures var t' := t.(l1 := Filled(t.l1, L1Index(baseAddress), count, Entry(baseAddress, 0xFFF0_0000, d), OFFSET_1M, 1));
            Walk(t', va) == Section(va, d) <==> d % 4 == 2 && d / 0x4_0000 % 2 == 0
  {
    var o, m := L1Index(baseAddress), L1Index(va);
    EntryValues(baseAddress, d);
    SectionFields(m, d);
    SectionSteps(o, m - o, d);
  }

  // ---------- Pages ----------

  // The tables after one of the page writers, with the second-level table filled as given.
  function WithPages(t: Tables, baseAddress: nat, l2Address: nat, d1: nat, filled: seq<int>): Tables
    requires IsTables(t) && IsUint32(baseAddress)
  {
    Tables(t.l1[L1Index(baseAddress) := Entry(l2Address, 0xFFFF_FC00, d1)], t.l2[l2Address := filled])
  }

  // A 1 KB aligned second-level table of its own.
  predicate IsL2Address(t: Tables, l2Address: nat) {
    IsUint32(l2Address) && l2Address % 0x400 == 0 && l2Address in t.l2
  }

  predicate UsesTable(t: Tables, l2Address: nat, va: int)
    requires IsTables(t) && IsUint32(va)
  {
    t.l1[L1Index(va)] % 4 == 1 && t.l1[L1Index(va)] / 0x400 * 0x400 == l2Address
  }

  lemma TableFields(l2Address: nat, d: int)
    requires l2Address % 0x400 == 0 && IsTableDescriptor(d)
    ensures var e := l2Address + d; e % 4 == 1 && e / 0x400 * 0x400 == l2Address && e % 0x400 == d
  {
    var k := l2Address / 0x400;
    assert l2Address == k * 0x400;
    DivModUnique(k * 0x400 + d, 0x400, k, d);
    DivModUnique(k * 0x400 + d, 4, k * 0x100 + d / 4, d % 4);
  }

  /** The new first-level entry sends its megabyte to the second-level table; a megabyte elsewhere
      that does not use that table is translated as before. */
  lemma PagesWalk(t: Tables, baseAddress: nat, l2Address: nat, d1: nat, filled: seq<int>, va: int)
    requires IsTables(t) && IsUint32(baseAddress) && IsUint32(va) && IsTableDescriptor(d1)
    requires IsL2Address(t, l2Address) && |filled| == ENTRIES_L2
    ensures var t' := WithPages(t, baseAddress, l2Address, d1, filled);
            && IsTables(t')
            && (L1Index(va) == L1Index(baseAddress) ==> Walk(t', va) == WalkL2(d1, filled[L2Index(va)], va))
            && (L1Index(va) != L1Index(baseAddress) && !UsesTable(t, l2Address, va) ==> Walk(t', va) == Walk(t, va))
  {
    EntryValues(l2Address, d1);
    TableFields(l2Address, d1);
  }

  // Pages up to the end of the megabyte have consecutive second-level indices.
  lemma PagesOf(baseAddress: nat, va: nat, count: nat)
    requires L2Index(baseAddress) + count <= ENTRIES_L2
    ensures baseAddress / OFFSET_4K <= va / OFFSET_4K < baseAddress / OFFSET_4K + count <==>
            L1Index(va) == L1Index(baseAddress) && L2Index(baseAddress) <= L2Index(va) < L2Index(baseAddress) + count
    ensures L1Index(va) == L1Index(baseAddress) ==> L2Index(va) - L2Index(baseAddress) == va / OFFSET_4K - baseAddress / OFFSET_4K
  {
    PageNumber(va);
    PageNumber(baseAddress);
  }

  lemma PageNumber(address: nat)
    ensures address / OFFSET_4K == L1Index(address) * ENTRIES_L2 + L2Index(address)
  {
    var p := address / OFFSET_4K;
    DivModUnique(address, OFFSET_1M, p / ENTRIES_L2, p % ENTRIES_L2 * OFFSET_4K + address % OFFSET_4K);
  }

  lemma SmallPageFields(p: nat, d: int)
    requires 0 <= d < OFFSET_4K
    ensures var e := p * OFFSET_4K + d; e % 4 == d % 4 && e / OFFSET_4K == p && e % OFFSET_4K == d
  {
    var e := p * OFFSET_4K + d;
    DivModUnique(e, OFFSET_4K, p, d);
    DivModUnique(e, 4, p * 0x400 + d / 4, d % 4);
  }

  function Pages4k(table: seq<int>, baseAddress: nat, count: nat, d2: nat): (r: seq<int>)
    ensures |r| == |table|
  {
    Filled(table, L2Index(baseAddress), count, Entry(baseAddress, 0xFFFF_F000, d2), OFFSET_4K, 1)
  }

  predicate Covered(baseAddress: nat, pages: nat, va: int) {
    baseAddress / OFFSET_4K <= va / OFFSET_4K < baseAddress / OFFSET_4K + pages
  }

  lemma SmallPageSteps(p: nat, n: nat, d: nat)
    requires d < OFFSET_4K && p + n < 0x10_0000
    ensures (p * OFFSET_4K + d + n * OFFSET_4K) % TWO_32 == (p + n) * OFFSET_4K + d
  {
  }

  lemma SmallPageEntry(table: seq<int>, baseAddress: nat, count: nat, d2: nat, va: int)
    requires IsUint32(baseAddress) && IsUint32(va) && |table| == ENTRIES_L2
    requires IsSmallPageDescriptor(d2) && L2Index(baseAddress) + count <= ENTRIES_L2
    requires L1Index(va) == L1Index(baseAddress)
    ensures Pages4k(table, baseAddress, count, d2)[L2Index(va)]
         == if Covered(baseAddress, count, va) then va / OFFSET_4K * OFFSET_4K + d2 else table[L2Index(va)]
  {
    var o, j := L2Index(baseAddress), L2Index(va);
    PagesOf(baseAddress, va, count);
    assert Covered(baseAddress, count, va) <==> o <= j < o + count;
    if Covered(baseAddress, count, va) {
      var p := baseAddress / OFFSET_4K;
      assert va / OFFSET_4K == p + (j - o) < 0x10_0000;
      assert Entry(baseAddress, 0xFFFF_F000, d2) == p * OFFSET_4K + d2 by { EntryValues(baseAddress, d2); }
      SmallPageSteps(p, j - o, d2);
    }
  }

  /** After __TTPage_4k each covered address is mapped to itself with the attributes asked for; the
      rest of its megabyte follows the old second-level entries, and other megabytes are as before. */
  lemma SmallPageIdentity(t: Tables, baseAddress: nat, count: nat, d1: nat, l2Address: nat, d2: nat, va: int)
    requires IsTables(t) && IsUint32(baseAddress) && IsUint32(va) && IsL2Address(t, l2Address)
    requires IsTableDescriptor(d1) && IsSmallPageDescriptor(d2) && L2Index(baseAddress) + count <= ENTRIES_L2
    ensures var t' := WithPages(t, baseAddress, l2Address, d1, Pages4k(t.l2[l2Address], baseAddress, count, d2));
            && IsTables(t')
            && (Covered(baseAddress, count, va) ==> Walk(t', va) == SmallPage(va, d1, d2))
            && (L1Index(va) == L1Index(baseAddress) && !Covered(baseAddress, count, va)
                ==> Walk(t', va) == WalkL2(d1, t.l2[l2Address][L2Index(va)], va))
            && (L1Index(va) != L1Index(baseAddress) && !UsesTable(t, l2Address, va) ==> Walk(t', va) == Walk(t, va))
  {
    PagesWalk(t, baseAddress, l2Address, d1, Pages4k(t.l2[l2Address], baseAddress, count, d2), va);
    PagesOf(baseAddress, va, count);
    if L1Index(va) == L1Index(baseAddress) {
      SmallPageEntry(t.l2[l2Address], baseAddress, count, d2, va);
      SmallPageFields(va / OFFSET_4K, d2);
    }
  }

  lemma LargePageFields(p: nat, d: int)
    requires 0 <= d < OFFSET_64K
    ensures var e := p * OFFSET_64K + d; e % 4 == d % 4 && e / OFFSET_64K == p && e % OFFSET_64K == d
  {
    var e := p * OFFSET_64K + d;
    DivModUnique(e, OFFSET_64K, p, d);
    DivModUnique(e, 4, p * 0x4000 + d / 4, d % 4);
  }

  function Pages64k(table: seq<int>, baseAddress: nat, count: nat, d2: nat): (r: seq<int>)
    ensures |r| == |table|
  {
    Filled(table, L2Index(baseAddress), 16 * count, Entry(baseAddress, 0xFFFF_0000, d2), OFFSET_64K, 16)
  }

  // The large page a covered address is sent to, whatever the alignment of the base.
  function TargetPage(baseAddress: nat, va: int): int {
    baseAddress / OFFSET_64K + (va / OFFSET_4K - baseAddress / OFFSET_4K) / 16
  }

  // The n-th entry of large pages above page q, for descriptors that leave the address alone.
  lemma LargePageSteps(q: nat, n: nat, d: int)
    requires IsLargePageDescriptor(d) && q + n < 0x1_0000
    ensures (q * OFFSET_64K + d + n * OFFSET_64K) % TWO_32 == (q + n) * OFFSET_64K + d
  {
  }

  lemma PagesIn64k(address: int)
    ensures address / OFFSET_4K / 16 == address / OFFSET_64K
    ensures address % OFFSET_64K < OFFSET_4K ==> address / OFFSET_4K == 16 * (address / OFFSET_64K)
  {
    var p := address / OFFSET_4K;
    DivModUnique(address, OFFSET_64K, p / 16, p % 16 * OFFSET_4K + address % OFFSET_4K);
  }

  lemma TargetFits(baseAddress: nat, va: int)
    requires IsUint32(va) && baseAddress / OFFSET_4K <= va / OFFSET_4K
    ensures TargetPage(baseAddress, va) < 0x1_0000
  {
    PagesIn64k(baseAddress);
    var a, b := va / OFFSET_4K, baseAddress / OFFSET_4K;
    assert a < 0x10_0000;
    assert 16 * (baseAddress / OFFSET_64K) <= b;
    assert 16 * ((a - b) / 16) <= a - b;
  }

  lemma LargePageEntry(table: seq<int>, baseAddress: nat, count: nat, d2: nat, va: int)
    requires IsUint32(baseAddress) && IsUint32(va) && |table| == ENTRIES_L2
    requires IsLargePageDescriptor(d2) && L2Index(baseAddress) + 16 * count <= ENTRIES_L2
    requires L1Index(va) == L1Index(baseAddress)
    ensures Pages64k(table, baseAddress, count, d2)[L2Index(va)]
         == if Covered(baseAddress, 16 * count, va) then TargetPage(baseAddress, va) * OFFSET_64K + d2 else table[L2Index(va)]
  {
    var o, j, e := L2Index(baseAddress), L2Index(va), Entry(baseAddress, 0xFFFF_0000, d2);
    PagesOf(baseAddress, va, 16 * count);
    FilledAt(table, o, 16 * count, e, OFFSET_64K, 16, j);
    if Covered(baseAddress, 16 * count, va) {
      var q, n := baseAddress / OFFSET_64K, (j - o) / 16;
      assert TargetPage(baseAddress, va) == q + n;
      TargetFits(baseAddress, va);
      assert e == q * OFFSET_64K + d2 by { EntryValues(baseAddress, d2); }
      LargePageSteps(q, n, d2);
    }
  }

  /** After __TTPage_64k each covered address is mapped within its target page. */
  lemma LargePageWalk(t: Tables, baseAddress: nat, count: nat, d1: nat, l2Address: nat, d2: nat, va: int)
    requires IsTables(t) && IsUint32(baseAddress) && IsUint32(va) && IsL2Address(t, l2Address)
    requires IsTableDescriptor(d1) && IsLargePageDescriptor(d2) && L2Index(baseAddress) + 16 * count <= ENTRIES_L2
    ensures var t' := WithPages(t, baseAddress, l2Address, d1, Pages64k(t.l2[l2Address], baseAddress, count, d2));
            && IsTables(t')
            && (Covered(baseAddress, 16 * count, va)
                ==> Walk(t', va) == LargePage(TargetPage(baseAddress, va) * OFFSET_64K + va % OFFSET_64K, d1, d2))
            && (L1Index(va) == L1Index(baseAddress) && !Covered(baseAddress, 16 * count, va)
                ==> Walk(t', va) == WalkL2(d1, t.l2[l2Address][L2Index(va)], va))
            && (L1Index(va) != L1Index(baseAddress) && !UsesTable(t, l2Address, va) ==> Walk(t', va) == Walk(t, va))
  {
    PagesWalk(t, baseAddress, l2Address, d1, Pages64k(t.l2[l2Address], baseAddress, count, d2), va);
    PagesOf(baseAddress, va, 16 * count);
    if L1Index(va) == L1Index(baseAddress) {
      LargePageEntry(t.l2[l2Address], baseAddress, count, d2, va);
      if Covered(baseAddress, 16 * count, va) { LargePageFields(TargetPage(baseAddress, va), d2); }
    }
  }

  // With an aligned base the target page is the address's own; without, not so for the first
  // page boundary after the base.
  lemma TargetIsOwn(baseAddress: nat, va: int)
    requires baseAddress % OFFSET_64K < OFFSET_4K
    ensures TargetPage(baseAddress, va) == va / OFFSET_64K
  {
    PagesIn64k(va);
    PagesIn64k(baseAddress);
    var a, q := va / OFFSET_4K, baseAddress / OFFSET_64K;
    assert baseAddress / OFFSET_4K == 16 * q;
    DivModUnique(a - 16 * q, 16, a / 16 - q, a % 16);
  }

  lemma TargetIsOther(baseAddress: nat, count: nat) returns (va: int)
    requires IsUint32(baseAddress) && L2Index(baseAddress) + 16 * count <= ENTRIES_L2 && count > 0
    requires baseAddress % OFFSET_64K >= OFFSET_4K
    ensures IsUint32(va) && Covered(baseAddress, 16 * count, va) && TargetPage(baseAddress, va) * OFFSET_64K + va % OFFSET_64K != va
  {
    va := (baseAddress / OFFSET_64K + 1) * OFFSET_64K;
    DivModUnique(va, OFFSET_64K, baseAddress / OFFSET_64K + 1, 0);
    DivModUnique(va, OFFSET_4K, (baseAddress / OFFSET_64K + 1) * 16, 0);
  }

  ghost predicate MappedToThemselves(t: Tables, baseAddress: nat, pages: nat, d1: int, d2: int)
    requires IsTables(t)
  {
    forall va :: IsUint32(va) && Covered(baseAddress, pages, va) ==> Walk(t, va) == LargePage(va, d1, d2)
  }

  /** The covered addresses are mapped to themselves exactly when the base is in the first 4 KB of its
      64 KB page. */
  lemma LargePageIdentityIff(t: Tables, baseAddress: nat, count: nat, d1: nat, l2Address: nat, d2: nat)
    requires IsTables(t) && IsUint32(baseAddress) && IsL2Address(t, l2Address) && count > 0
    requires IsTableDescriptor(d1) && IsLargePageDescriptor(d2) && L2Index(baseAddress) + 16 * count <= ENTRIES_L2
    ensures var t' := WithPages(t, baseAddress, l2Address, d1, Pages64k(t.l2[l2Address], baseAddress, count, d2));
            && IsTables(t')
            && (baseAddress % OFFSET_64K < OFFSET_4K <==> MappedToThemselves(t', baseAddress, 16 * count, d1, d2))
  {
    var t' := WithPages(t, baseAddress, l2Address, d1, Pages64k(t.l2[l2Address], baseAddress, count, d2));
    LargePageWalk(t, baseAddress, count, d1, l2Address, d2, baseAddress);
    if baseAddress % OFFSET_64K < OFFSET_4K {
      forall va | IsUint32(va) && Covered(baseAddress, 16 * count, va) ensures Walk(t', va) == LargePage(va, d1, d2) {
        LargePageWalk(t, baseAddress, count, d1, l2Address, d2, va);
        TargetIsOwn(baseAddress, va);
      }
    } else {
      var va := TargetIsOther(baseAddress, count);
      LargePageWalk(t, baseAddress, count, d1, l2Address, d2, va);
    }
  }

  /** What makes a page descriptor without address bits a small or a large one. */
  lemma PageKinds(d1: int, p: nat, d2: int, va: int)
    requires va >= 0
    ensures 0 <= d2 < 0x1000 && p == va / 0x1000 ==>
            (WalkL2(d1, p * 0x1000 + d2, va) == SmallPage(va, d1, d2) <==> IsSmallPageDescriptor(d2))
    ensures 0 <= d2 < 0x1000 ==> (IsSmallPageDescriptor(d2) <==> d2 % 4 == 2 || d2 % 4 == 3)
    ensures 0 <= d2 < 0x1_0000 && p == va / 0x1_0000 ==>
            (WalkL2(d1, p * 0x1_0000 + d2, va) == LargePage(va, d1, d2) <==> IsLargePageDescriptor(d2))
    ensures 0 <= d2 < 0x1_0000 ==> (IsLargePageDescriptor(d2) <==> d2 % 4 == 1)
  {
    if 0 <= d2 < 0x1000 { SmallPageFields(p, d2); }
    if 0 <= d2 < 0x1_0000 { LargePageFields(p, d2); }
  }
}
