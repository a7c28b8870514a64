/**
 The address and page-table-entry macros of section 4.4 (Sv39) of the RISC-V
 Privileged Architecture, version 1.12, on 64-bit unsigned words.
 */
module Sv39 {

  const WORD := 0x1_0000_0000_0000_0000  // 2^64
  const PGSIZE := 4096
  const ENTRIES := 512
  const MAXVA := 0x40_0000_0000          // 2^38
  const PAGES := 0x400_0000              // MAXVA / PGSIZE

  const PTE_V := 1
  const PTE_R := 2
  const PTE_W := 4
  const PTE_X := 8
  const PTE_U := 16

  const TRAMPOLINE := MAXVA - PGSIZE
  const TRAPFRAME := TRAMPOLINE - PGSIZE

  function PgRoundUp(a: nat): nat {
    (a + PGSIZE - 1) % WORD / PGSIZE * PGSIZE
  }

  function PgRoundDown(a: nat): nat {
    a / PGSIZE * PGSIZE
  }

  /** PX(level, va) for the three levels. */
  function Px(level: nat, va: nat): (i: nat)
    requires level <= 2
    ensures i < ENTRIES
  {
    if level == 0 then va / 4096 % 512
    else if level == 1 then va / 0x20_0000 % 512
    else va / 0x4000_0000 % 512
  }

  function Pa2Pte(pa: nat): nat {
    pa / 4096 * 1024
  }

  function Pte2Pa(pte: nat): nat {
    pte / 1024 * 4096 % WORD
  }

  function PteFlags(pte: nat): nat {
    pte % 1024
  }

  predicate Has(pte: nat, flag: nat)
    requires flag > 0
  {
    pte / flag % 2 == 1
  }

  /** PA2PTE(pa) | perm | PTE_V: the low ten bits of PA2PTE(pa) are clear. */
  function MakePte(pa: nat, perm: nat): nat {
    Pa2Pte(pa) + (if Has(perm, PTE_V) then perm else perm + PTE_V)
  }

  /** (pte & (PTE_R|PTE_W|PTE_X)) != 0 */
  predicate IsLeaf(pte: nat) {
    pte / 2 % 8 != 0
  }

  /** A page number over ten flag bits comes apart again. */
  lemma Unpack(q: nat, f: nat)
    requires f < 1024
    ensures (q * 1024 + f) / 1024 == q && (q * 1024 + f) % 1024 == f
  {
  }

  lemma LowBits(q: nat, f: nat)
    ensures (q * 1024 + f) % 2 == f % 2
    ensures (q * 1024 + f) / 2 % 8 == f / 2 % 8
  {
    assert (q * 1024 + f) / 2 == q * 512 + f / 2;
    assert (q * 512 + f / 2) % 8 == f / 2 % 8;
  }

  lemma SetValid(perm: nat)
    requires perm < 1024 && !Has(perm, PTE_V)
    ensures perm + PTE_V < 1024 && (perm + PTE_V) % 2 == 1 && (perm + PTE_V) / 2 == perm / 2
  {
  }

  /** PTE encoding round-trips: an entry gives back its page and its flags, with the valid bit set. */
  lemma PteRoundTrip(pa: nat, perm: nat)
    requires pa < WORD && perm < 1024
    ensures Pte2Pa(MakePte(pa, perm)) == PgRoundDown(pa)
    ensures Has(MakePte(pa, perm), PTE_V)
    ensures PteFlags(MakePte(pa, perm)) == if Has(perm, PTE_V) then perm else perm + PTE_V
    ensures IsLeaf(MakePte(pa, perm)) <==> IsLeaf(perm)
    ensures MakePte(pa, perm) < WORD
  {
    var q := pa / 4096;
    if !Has(perm, PTE_V) {
      SetValid(perm);
    }
    var f := if Has(perm, PTE_V) then perm else perm + PTE_V;
    Unpack(q, f);
    LowBits(q, f);
  }

  /** The same round trip on the machine's own bits. */
  lemma PteRoundTripBits(pa: bv64, perm: bv64)
    requires perm <= 0x3FF
    ensures var pte := ((pa >> 12) << 10) | perm | 1;
            && (pte >> 10) << 12 == pa & 0xFFFF_FFFF_FFFF_F000
            && pte & 0x3FF == perm | 1
  {
  }

  /** The three indices of an address spell its page number. */
  lemma PxSpell(va: nat)
    requires va < MAXVA
    ensures va / PGSIZE < PAGES
    ensures Px(0, va) == va / PGSIZE % ENTRIES
    ensures Px(1, va) == va / PGSIZE / ENTRIES % ENTRIES
    ensures Px(2, va) == va / PGSIZE / ENTRIES / ENTRIES
  {
    assert va / 0x20_0000 == va / 4096 / 512;
    assert va / 0x4000_0000 == va / 4096 / 512 / 512;
  }

  lemma RoundUp(a: nat)
    requires a + PGSIZE <= WORD
    ensures PgRoundUp(a) % PGSIZE == 0 && a <= PgRoundUp(a) < a + PGSIZE
    ensures PgRoundUp(a) / PGSIZE == (a + PGSIZE - 1) / PGSIZE
  {
  }
}
