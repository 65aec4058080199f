/** src/device/sv39.h. The source's bit expressions carry the suffix Bits; the
    functions without it say what they compute, and the rest of the model uses those. */
module Sv39 {
  import opened Bits

  const PAGE_SIZE: nat := 4096
  const PAGE_ELEM: nat := 512
  const MAX_PHY_RANGE: nat := 0x100_0000_0000_0000
  const WORD_RANGE: nat := 0x1_0000_0000_0000_0000

  /** Entry flags: V alone marks a pointer to a table, R | W | X | V a leaf. */
  const V: nat := 1
  const RWXV: nat := 15

  function VAextractBits(va: nat, level: nat): nat
  {
    if level == 0 then And(Shr(va, 30), 0x1ff)
    else if level == 1 then And(Shr(va, 21), 0x1ff)
    else And(Shr(va, 12), 0x1ff)
  }

  function PTE2PABits(pte: nat): nat
  {
    Shl(And(pte, 0x003f_ffff_ffff_fc00), 2)
  }

  function SetPTEBits(pa: nat, mods: nat): nat
  {
    Or(Shr(And(pa, 0x00ff_ffff_ffff_f000), 2), mods)
  }

  /** Index into the table of the given depth: 0 is the root. */
  function VAextract(va: nat, level: nat): (i: nat)
    requires level <= 2
    ensures i < PAGE_ELEM
  {
    if level == 0 then va / 0x4000_0000 % 512
    else if level == 1 then va / 0x20_0000 % 512
    else va / 0x1000 % 512
  }

  /** The physical page an entry points at. */
  function PTE2PA(pte: nat): (pa: nat)
    ensures pa % PAGE_SIZE == 0 && pa < MAX_PHY_RANGE
  {
    pte / 1024 % 0x1000_0000_0000 * 4096
  }

  function SetPTE(pa: nat, mods: nat): nat
  {
    pa / 4096 % 0x1000_0000_0000 * 1024 + mods
  }

  /** VAcheck with its two bounds. */
  predicate VAcheck(va: nat)
  {
    !(va >= 0x40_0000_0000 && va < 0xffff_ffc0_0000_0000)
  }

  /** Section 4.4.1 of the RISC-V privileged architecture: bits 63 to 38 of a virtual address are
      all zeros or all ones. */
  lemma VAcheckMeaning(va: nat)
    requires va < WORD_RANGE
    ensures VAcheck(va) <==> Shr(va, 38) == 0 || Shr(va, 38) == Pow2(26) - 1
  {
    hide Shr;
    PowerValues();
    assert Pow2(26) == 32 * Pow2(21);
    assert Pow2(38) == 256 * Pow2(30);
    DivMod(va, 38);
  }

  lemma VAextractMeaning(va: nat, level: nat)
    requires level <= 2
    ensures VAextractBits(va, level) == VAextract(va, level)
  {
    hide And, Shr, Low, Pow2;
    var k := if level == 0 then 30 else if level == 1 then 21 else 12;
    PowerValues();
    DivMod(va, k);
    AndLowMask(Shr(va, k), 9);
    DivMod(Shr(va, k), 9);
  }

  lemma PTE2PAMeaning(pte: nat)
    ensures PTE2PABits(pte) == PTE2PA(pte)
  {
    var mask := Pow2(44) - 1;
    PowerValues();
    ShiftLeftIsTimes(mask, 10);
    AndShifted(pte, mask, 10);
    AndLowMask(Shr(pte, 10), 44);
    DivMod(pte, 10);
    DivMod(Shr(pte, 10), 44);
    var ppn := Low(Shr(pte, 10), 44);
    ShiftLeftIsTimes(ppn, 10);
    ShiftLeftIsTimes(Shl(ppn, 10), 2);
  }

  lemma SetPTEMeaning(pa: nat, mods: nat)
    requires mods < 1024
    ensures SetPTEBits(pa, mods) == SetPTE(pa, mods)
  {
    hide And, Or, Shr, Shl, Low, Pow2;
    var mask := Pow2(44) - 1;
    PowerValues();
    ShiftLeftIsTimes(mask, 12);
    AndShifted(pa, mask, 12);
    AndLowMask(Shr(pa, 12), 44);
    DivMod(pa, 12);
    DivMod(Shr(pa, 12), 44);
    var ppn := Low(Shr(pa, 12), 44);
    ShiftLeftIsTimes(ppn, 12);
    DivMod(Shl(ppn, 12), 2);
    ShiftLeftIsTimes(ppn, 10);
    OrDisjoint(ppn, mods, 10);
  }

  lemma PageNumber(pa: nat)
    requires pa % PAGE_SIZE == 0 && pa < MAX_PHY_RANGE
    ensures pa == pa / 4096 * 4096 && pa / 4096 % 0x1000_0000_0000 == pa / 4096
  {
  }

  lemma EntryFields(ppn: nat, mods: nat)
    requires mods < 1024
    ensures (ppn * 1024 + mods) / 1024 == ppn
  {
  }

  lemma EntryBit(ppn: nat, mods: nat)
    ensures (ppn * 1024 + mods) % 2 == mods % 2
  {
    assert ppn * 1024 + mods == 2 * (ppn * 512) + mods;
  }

  /** Entries written for a page address can be read back, flags included. */
  lemma PteRoundTrip(pa: nat, mods: nat)
    requires pa % PAGE_SIZE == 0 && pa < MAX_PHY_RANGE && mods < 1024
    ensures PTE2PA(SetPTE(pa, mods)) == pa
    ensures SetPTE(pa, mods) < WORD_RANGE
    ensures SetPTE(pa, mods) % 2 == mods % 2
  {
    PageNumber(pa);
    EntryFields(pa / 4096, mods);
    EntryBit(pa / 4096, mods);
  }

  /** convert's `p_addr | (v_addr & 0xfff)` adds the page offset. */
  lemma JoinOffset(pa: nat, va: nat)
    requires pa % PAGE_SIZE == 0
    ensures Or(pa, And(va, 0xfff)) == pa + va % PAGE_SIZE
  {
    hide And, Or, Shr, Shl, Low, Pow2;
    PowerValues();
    AndLowMask(va, 12);
    DivMod(va, 12);
    DivMod(pa, 12);
    ShiftLeftIsTimes(pa / 4096, 12);
    OrDisjoint(pa / 4096, va % 4096, 12);
  }

  /** The V test of an entry. */
  lemma ValidBit(pte: nat)
    ensures And(pte, V) == pte % 2
  {
  }
}
