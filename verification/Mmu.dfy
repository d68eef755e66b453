/** Page-table words, permission flags and the address layout of include/mmu.h.

    A 32-bit page-table word is a 20-bit page number and 12 flag bits; the number is kept as a
    `nat`, the flags as a `bv12` so that `&`, `|` and `!` are the machine's.  A virtual page is
    its pair (PDX, PTX) of 10-bit indices. */
module Mmu {
  const PTE_COW: bv12 := 0x001
  const PTE_LIBRARY: bv12 := 0x002
  const PTE_G: bv12 := 0x040
  const PTE_V: bv12 := 0x080
  const PTE_D: bv12 := 0x100
  const PTE_C_CACHEABLE: bv12 := 0x600
  // The bits that survive the shift by PTE_HARDFLAG_SHIFT into EntryLo.
  const HARD_FLAGS: bv12 := 0xfc0

  const NASID := 256
  const WORDS := 1024      // words in a page, and entries in a page table
  const PDX_UTOP := 509    // UTOP = UENVS
  const PDX_UVPT := 511
  const PTX_UTEMP := 1022  // UTEMP is page (0, 1022)

  // The addresses that the calls compare with.
  const PAGE_BYTES := 4096
  const UTEMP := 0x003f_e000
  const USTACKTOP := 0x7f3f_e000
  const UTOP := 0x7f40_0000
  const UVPT := 0x7fc0_0000
  const ULIM := 0x8000_0000

  datatype Word = Word(ppn: nat, flags: bv12)

  const ZERO := Word(0, 0)

  type Frame = seq<Word>

  /** A cleared page. */
  function Zeros(): (f: Frame)
    ensures |f| == WORDS && forall k :: 0 <= k < WORDS ==> f[k] == ZERO
  {
    seq(WORDS, _ => ZERO)
  }

  predicate Valid(w: Word) {
    w.flags & PTE_V != 0
  }

  predicate Global(w: Word) {
    w.flags & PTE_G != 0
  }

  /** The word that page_insert and pgdir_walk store. */
  function Entry(pp: nat, perm: bv12): Word {
    Word(pp, perm | PTE_C_CACHEABLE | PTE_V)
  }

  /** What a TLB half keeps of a page-table word. */
  function Hw(w: Word): Word {
    Word(w.ppn, w.flags & HARD_FLAGS)
  }

  /** The directory entries through which the walk of a live space finds a page of words: its page tables,
      and at UVPT the directory itself. */
  predicate HasTable(i: nat) { i < PDX_UTOP || i == PDX_UVPT }

  /** The number of page (i, j), and its first address. */
  function Vpn(i: nat, j: nat): nat { WORDS * i + j }

  function Address(i: nat, j: nat): nat { PAGE_BYTES * Vpn(i, j) }

  /** `is_illegal_va` negated: UTEMP <= va < UTOP. */
  predicate IsUser(i: nat, j: nat) {
    i < PDX_UTOP && j < WORDS && (i == 0 ==> PTX_UTEMP <= j)
  }

  /** Where a user page may come to be mapped: at an address that the calls accept, or at address 0,
      which is where a page sent to a receiver without a destination goes. */
  predicate MayMap(i: nat, j: nat) {
    IsUser(i, j) || (i == 0 && j == 0)
  }

  predicate CanWrite(w: Word) {
    w.flags & PTE_D != 0
  }

  /** The word maps page `pp`: it may be written, is shared, or is copied on write iff `perm` says so. */
  predicate Grants(w: Word, pp: nat, perm: bv12) {
    && Valid(w) && w.ppn == pp
    && (CanWrite(w) <==> perm & PTE_D != 0)
    && (w.flags & PTE_COW != 0 <==> perm & PTE_COW != 0)
    && (w.flags & PTE_LIBRARY != 0 <==> perm & PTE_LIBRARY != 0)
  }

  lemma EntryFlags(pp: nat, perm: bv12)
    ensures Grants(Entry(pp, perm), pp, perm)
    ensures perm & PTE_G == 0 ==> !Global(Entry(pp, perm))
    ensures !Valid(ZERO) && !Global(ZERO)
  {
    assert (perm | PTE_C_CACHEABLE | PTE_V) & PTE_D == perm & PTE_D;
    assert (perm | PTE_C_CACHEABLE | PTE_V) & PTE_COW == perm & PTE_COW;
    assert (perm | PTE_C_CACHEABLE | PTE_V) & PTE_LIBRARY == perm & PTE_LIBRARY;
  }

  /** A half translates to the page of the word, and lets the same accesses through. */
  lemma HwKeeps(w: Word)
    ensures Hw(w).ppn == w.ppn
    ensures Valid(Hw(w)) == Valid(w) && Global(Hw(w)) == Global(w) && CanWrite(Hw(w)) == CanWrite(w)
  {
    var f := w.flags;
    assert f & HARD_FLAGS & PTE_V == f & PTE_V;
    assert f & HARD_FLAGS & PTE_G == f & PTE_G;
    assert f & HARD_FLAGS & PTE_D == f & PTE_D;
  }

  /** An address in page (i, j). */
  predicate In(va: nat, i: nat, j: nat) {
    j < WORDS && Address(i, j) <= va < Address(i, j) + PAGE_BYTES
  }

  lemma UserIff(va: nat, i: nat, j: nat)
    requires In(va, i, j)
    ensures IsUser(i, j) <==> UTEMP <= va < UTOP
  {
  }
}
