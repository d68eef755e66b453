/** What a user of the memory calls relies on (kern/syscall_all.c, kern/tlbex.c): which page is mapped
    where with which permissions, when a call succeeds, and what a store then does. */
module MemCalls {
  import opened Basics
  import opened Mmu
  import opened PageTables
  import opened PageEffects
  import opened PageInvariants
  import opened PageMap
  import opened Spaces
  import opened VmRuns

  /** Page `x` now maps page `pp` with the permissions asked for, and no other page changed. */
  ghost predicate Maps(vm: Vm, vm': Vm, x: Page, pp: nat, perm: bv12) {
    && vm'.spaces == vm.spaces
    && x in ViewOf(vm') && Grants(ViewOf(vm')[x], pp, perm)
    && ViewOf(vm') - {x} == ViewOf(vm) - {x}
  }

  lemma UpdateGains(vm: Vm, vm': Vm, x: Page, pp: nat, perm: bv12)
    requires vm'.spaces == vm.spaces && ViewOf(vm') == ViewOf(vm)[x := Entry(pp, perm)]
    ensures Maps(vm, vm', x, pp, perm)
  {
    EntryFlags(pp, perm);
    assert ViewOf(vm')[x] == Entry(pp, perm);
  }

  /** page_insert. */
  lemma InsertGains(vm: Vm, a: nat, i: nat, j: nat, pp: nat, perm: bv12)
    requires Inv(vm) && CanInsert(vm, a, i, j, pp, perm)
    ensures var (vm', ok) := PageInsert(vm, a, i, j, pp, perm);
      ok ==> Maps(vm, vm', Page(a, i, j), pp, perm)
  {
    InsertIsMapUpdate(vm, a, i, j, pp, perm);
    var (vm', ok) := PageInsert(vm, a, i, j, pp, perm);
    if ok {
      UpdateGains(vm, vm', Page(a, i, j), pp, perm);
    }
  }

  /** The entry as the two-level walk finds it. */
  lemma GainedEntry(vm: Vm, vm': Vm, x: Page, pp: nat, perm: bv12)
    requires Maps(vm, vm', x, pp, perm)
    ensures Grants(Pte(vm', x.a, x.i, x.j), pp, perm) && MayMap(x.i, x.j) && x.a in vm'.spaces
  {
    assert x in Mapped(vm');
  }

  /** A store: where the entry is writable, one word of its page becomes `w`; nothing else changes. */
  lemma StoreIff(vm: Vm, a: nat, i: nat, j: nat, off: nat, w: Word)
    requires Inv(vm) && Page(a, i, j) in ViewOf(vm) && off < WORDS
    ensures var e := ViewOf(vm)[Page(a, i, j)]; var u := UserStore(vm, a, i, j, off, w);
      forall p: nat, k: nat :: Load(u.phys, p, k) ==
        if p == e.ppn && k == off && e.flags & PTE_D != 0 then w else Load(vm.phys, p, k)
  {
    assert Page(a, i, j) in Mapped(vm);
    MappedIsMappable(vm, a, i, j);
  }

  /** After a mapping with `perm` a store to the page reaches `pp` iff `perm` has PTE_D. */
  lemma StoreAfter(vm: Vm, vm': Vm, x: Page, pp: nat, perm: bv12, off: nat, w: Word)
    requires Inv(vm') && Maps(vm, vm', x, pp, perm) && off < WORDS
    ensures Load(UserStore(vm', x.a, x.i, x.j, off, w).phys, pp, off) ==
      if perm & PTE_D != 0 then w else Load(vm'.phys, pp, off)
  {
    StoreIff(vm', x.a, x.i, x.j, off, w);
  }

  /** A TLB half that translates the page goes to `pp`, and lets stores through iff `perm` has PTE_D. */
  lemma CachedAfter(vm: Vm, vm': Vm, x: Page, pp: nat, perm: bv12, k: nat)
    requires Inv(vm') && Maps(vm, vm', x, pp, perm) && k < |vm'.tlb|
    requires vm'.tlb[k].asid == x.a && vm'.tlb[k].pdx == x.i && vm'.tlb[k].pair == x.j / 2
    requires !ZeroPair(vm'.tlb[k])
    ensures var h := if x.j % 2 == 0 then vm'.tlb[k].lo0 else vm'.tlb[k].lo1;
      Valid(h) ==> h.ppn == pp && (CanWrite(h) <==> perm & PTE_D != 0)
  {
    GainedEntry(vm, vm', x, pp, perm);
    HardwareSeesTheMap(vm', k, x.j);
    HwKeeps(Pte(vm', x.a, x.i, x.j));
  }

  /** sys_mem_alloc: the first free page, cleared, at the address and with the permissions asked for.
      It succeeds iff the address is a user's, and there are pages for it and for its table. */
  lemma MemAllocIff(vm: Vm, a: nat, i: nat, j: nat, perm: bv12)
    requires Inv(vm) && Allowed(vm, MemAlloc(a, i, j, perm))
    ensures var (vm', ok) := SysMemAlloc(vm, a, i, j, perm);
      && (ok <==> IsUser(i, j) && vm.free != [] && (Valid(Pde(vm, a, i)) || |vm.free| > 1))
      && Inv(vm')
      && (ok ==> Maps(vm, vm', Page(a, i, j), vm.free[0], perm)
                 && vm.free[0] < |vm'.phys| && vm'.phys[vm.free[0]] == Zeros())
      && (!ok ==> ViewOf(vm') == ViewOf(vm))
  {
    if IsUser(i, j) && vm.free != [] {
      AllocFresh(vm, a, i, j, perm);
      var vm' := SysMemAlloc(vm, a, i, j, perm).0;
      if SysMemAlloc(vm, a, i, j, perm).1 {
        UpdateGains(vm, vm', Page(a, i, j), vm.free[0], perm);
      }
    }
  }

  /** sys_mem_map: the page that the source has, at the destination.  It succeeds iff both addresses are
      a user's, the source is mapped, and the destination has a table or can get one. */
  lemma MemMapIff(vm: Vm, a: nat, i: nat, j: nat, b: nat, k: nat, l: nat, perm: bv12)
    requires Inv(vm) && Allowed(vm, MemMap(a, i, j, b, k, l, perm))
    ensures var (vm', ok) := SysMemMap(vm, a, i, j, b, k, l, perm); var x := Page(a, i, j);
      && (ok <==> IsUser(i, j) && IsUser(k, l) && x in ViewOf(vm) && (Valid(Pde(vm, b, k)) || vm.free != []))
      && Inv(vm') && DataKept(vm, vm')
      && (ok ==> Maps(vm, vm', Page(b, k, l), ViewOf(vm)[x].ppn, perm))
      && (!ok ==> ViewOf(vm') == ViewOf(vm))
  {
    if IsUser(i, j) && IsUser(k, l) {
      IpcSendIsMapUpdate(vm, a, i, j, b, k, l, perm);
      var (vm', ok) := SysMemMap(vm, a, i, j, b, k, l, perm);
      if ok {
        UpdateGains(vm, vm', Page(b, k, l), ViewOf(vm)[Page(a, i, j)].ppn, perm);
      }
    }
  }

  /** sys_mem_unmap: succeeds iff the address is a user's, and then exactly that page is gone. */
  lemma MemUnmapIff(vm: Vm, a: nat, i: nat, j: nat)
    requires Inv(vm) && a in vm.spaces
    ensures var (vm', ok) := SysMemUnmap(vm, a, i, j);
      && (ok <==> IsUser(i, j))
      && (ok ==> (Inv(vm') && DataKept(vm, vm') && vm'.spaces == vm.spaces
                  && ViewOf(vm') == ViewOf(vm) - {Page(a, i, j)}))
      && (!ok ==> vm' == vm)
  {
    if IsUser(i, j) {
      RemoveIsMapRemove(vm, a, i, j);
    }
  }

  /** The page of a message: the page that the sender has, at the receiver's. */
  lemma SendGains(vm: Vm, a: nat, i: nat, j: nat, b: nat, k: nat, l: nat, perm: bv12)
    requires Inv(vm) && Allowed(vm, IpcSend(a, i, j, b, k, l, perm))
    ensures var (vm', ok) := IpcMap(vm, a, i, j, b, k, l, perm);
      ok ==> Page(a, i, j) in ViewOf(vm) && Maps(vm, vm', Page(b, k, l), ViewOf(vm)[Page(a, i, j)].ppn, perm)
  {
    IpcSendIsMapUpdate(vm, a, i, j, b, k, l, perm);
    var (vm', ok) := IpcMap(vm, a, i, j, b, k, l, perm);
    if ok {
      UpdateGains(vm, vm', Page(b, k, l), ViewOf(vm)[Page(a, i, j)].ppn, perm);
    }
  }

  /** passive_alloc of a user page: a cleared page that the user may write. */
  lemma PassiveGains(vm: Vm, a: nat, i: nat, j: nat)
    requires Inv(vm) && a in vm.spaces && !Valid(Pte(vm, a, i, j)) && i < PDX_UTOP
    requires PassiveAlloc(vm, a, i, j).Some?
    ensures var vm' := PassiveAlloc(vm, a, i, j).value;
      && vm.free != [] && Maps(vm, vm', Page(a, i, j), vm.free[0], PTE_D)
      && vm.free[0] < |vm'.phys| && vm'.phys[vm.free[0]] == Zeros()
  {
    PassiveAllocKeeps(vm, a, i, j);
    UpdateGains(vm, PassiveAlloc(vm, a, i, j).value, Page(a, i, j), vm.free[0], PTE_D);
  }

  /** The addresses that passive_alloc does not panic at. */
  lemma BackableIff(va: nat, i: nat, j: nat)
    requires In(va, i, j)
    ensures Backable(i, j) <==>
      UTEMP <= va && !(USTACKTOP <= va < USTACKTOP + PAGE_BYTES) && !(UTOP <= va < UVPT) && va < ULIM
  {
  }

  /** The entry translates page (i, j) of the space to what `w` says. */
  predicate Serves(e: TlbEntry, a: nat, i: nat, j: nat, w: Word) {
    var h := if j % 2 == 0 then e.lo0 else e.lo1;
    Hits(e, i, j / 2, a) && Valid(h) && Valid(w) && h.ppn == w.ppn && (CanWrite(h) <==> CanWrite(w))
  }

  lemma PairServes(u: Vm, a: nat, i: nat, j: nat)
    requires Valid(Pte(u, a, i, j))
    ensures Serves(PairEntry(u, a, i, j), a, i, j, Pte(u, a, i, j))
  {
    HwKeeps(Pte(u, a, i, j));
    assert j == if j % 2 == 0 then 2 * (j / 2) else 2 * (j / 2) + 1;
  }

  /** The page can be had and mapped. */
  predicate CanBack(vm: Vm, a: nat, i: nat, j: nat) {
    Backable(i, j) && vm.free != [] && (i == PDX_UVPT || Valid(Pde(vm, a, i)) || |vm.free| > 1)
  }

  lemma BackedIff(vm: Vm, a: nat, i: nat, j: nat)
    requires Inv(vm) && a in vm.spaces && Refillable(vm, a, i, j)
    ensures var b := Backed(Invalidate(vm, a, i, j), a, i, j);
      && (b.Some? <==> Valid(Pte(vm, a, i, j)) || CanBack(vm, a, i, j))
      && (b.Some? ==> |b.value.tlb| == |vm.tlb| && Valid(Pte(b.value, a, i, j)))
  {
    var v := Invalidate(vm, a, i, j);
    CoherentInvalidate(vm, a, i, j);
    assert Pde(v, a, i) == Pde(vm, a, i) && Pte(v, a, i, j) == Pte(vm, a, i, j);
    if !Valid(Pte(v, a, i, j)) {
      PassiveAllocKeeps(v, a, i, j);
    }
  }

  /** A refill succeeds iff the page is mapped or can be backed; then the access that missed finds a valid
      translation, which is the current entry. */
  lemma RefillServes(vm: Vm, a: nat, i: nat, j: nat, slot: nat)
    requires Inv(vm) && a in vm.spaces && Refillable(vm, a, i, j) && slot < |vm.tlb|
    ensures var r := Refill(vm, a, i, j, slot);
      && (r.Some? <==> Valid(Pte(vm, a, i, j)) || CanBack(vm, a, i, j))
      && (r.Some? ==> slot < |r.value.tlb| && Serves(r.value.tlb[slot], a, i, j, Pte(r.value, a, i, j)))
  {
    BackedIff(vm, a, i, j);
    var b := Backed(Invalidate(vm, a, i, j), a, i, j);
    if b.Some? {
      PairServes(b.value, a, i, j);
    }
  }
}
