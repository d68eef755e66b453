/** Runs of the memory system: system calls, TLB refills, user stores, environment creation and
    destruction, in any order. */
module VmRuns {
  import opened Basics
  import opened Mmu
  import opened PageTables
  import opened PageEffects
  import opened PageInvariants
  import opened PageMap
  import opened Spaces

  // ----- TLB refill -----

  ghost predicate NoHit(tlb: seq<TlbEntry>, i: nat, j: nat, a: nat) {
    forall k :: 0 <= k < |tlb| && !ZeroPair(tlb[k]) ==>
      !(tlb[k].pdx == i && tlb[k].pair == j / 2 && tlb[k].asid == a)
  }

  lemma TlbOutNoHit(vm: Vm, i: nat, j: nat, a: nat)
    requires Coherent(vm)
    ensures NoHit(TlbOut(vm.tlb, i, j, a), i, j, a)
  {
    TlbOutClears(vm, i, j, a);
  }

  /** Writing the current pair of entries into any slot keeps the TLB coherent. */
  lemma WritePairKeeps(vm: Vm, a: nat, i: nat, j: nat, slot: nat)
    requires Inv(vm) && a in vm.spaces && slot < |vm.tlb| && NoHit(vm.tlb, i, j, a)
    requires i < PDX_UTOP || i == PDX_UVPT
    ensures var vm' := vm.(tlb := vm.tlb[slot := PairEntry(vm, a, i, j)]);
      Inv(vm') && ViewOf(vm') == ViewOf(vm)
  {
    var e := PairEntry(vm, a, i, j);
    var vm' := vm.(tlb := vm.tlb[slot := e]);
    SameWalk(vm, vm');
    SameCounts(vm, vm');
    SameView(vm, vm');
    PairHalfOk(vm, a, i, 2 * (j / 2));
    PairHalfOk(vm, a, i, 2 * (j / 2) + 1);
    forall k | 0 <= k < |vm'.tlb| ensures EntryOk(vm', vm'.tlb[k]) {
      if k != slot {
        assert EntryOk(vm, vm.tlb[k]);
      }
      assert forall b: nat, p: nat, q: nat :: Pte(vm', b, p, q) == Pte(vm, b, p, q);
    }
  }

  lemma PairHalfOk(vm: Vm, a: nat, i: nat, j: nat)
    requires Inv(vm) && a in vm.spaces && (i < PDX_UTOP || i == PDX_UVPT)
    ensures HalfOk(vm, Hw(Pte(vm, a, i, j)), a, i, j)
  {
    HwKeeps(Pte(vm, a, i, j));
    EntryFlags(0, 0);
    if i == PDX_UVPT {
      WindowIsDirectory(vm, a, j);
      var root := vm.spaces[a];
      assert Pde(vm, a, PDX_UVPT) == Word(root, PTE_V);
    }
  }

  /** The addresses whose refill leaves the kernel's books in order: all below UTOP, and in the window
      at UVPT the tables of these and whatever is there already (see WindowLeaks). */
  predicate Refillable(vm: Vm, a: nat, i: nat, j: nat) {
    i < PDX_UTOP || (i == PDX_UVPT && (j < PDX_UTOP || Valid(Pte(vm, a, i, j))))
  }

  lemma InsertNoHit(vm: Vm, a: nat, i: nat, j: nat, pp: nat, perm: bv12)
    requires Inv(vm) && a in vm.spaces && !Valid(Pte(vm, a, i, j))
    ensures NoHit(PageInsert(vm, a, i, j, pp, perm).0.tlb, i, j, a)
    ensures |PageInsert(vm, a, i, j, pp, perm).0.tlb| == |vm.tlb|
  {
    TlbOutNoHit(vm, i, j, a);
    CoherentInvalidate(vm, a, i, j);
  }

  /** page_insert of a fresh page into the window is what pgdir_walk does to make a page table. */
  lemma WindowInsertIsWalk(vm: Vm, a: nat, j: nat)
    requires Inv(vm) && a in vm.spaces && j < WORDS && !Valid(Pte(vm, a, PDX_UVPT, j)) && vm.free != []
    ensures !Valid(Pde(vm, a, j)) && WalkCreate(Invalidate(vm, a, PDX_UVPT, j), a, j).Some?
    ensures PassiveAlloc(vm, a, PDX_UVPT, j) == WalkCreate(Invalidate(vm, a, PDX_UVPT, j), a, j)
  {
    var v := PageAlloc(vm).0;
    var pp := vm.free[0];
    AllocKeeps(vm);
    WindowIsDirectory(vm, a, j);
    WindowIsDirectory(v, a, j);
    var u := Invalidate(v, a, PDX_UVPT, j);
    assert Pde(v, a, PDX_UVPT) == Word(vm.spaces[a], PTE_V);
    assert Pde(u, a, PDX_UVPT) == Pde(v, a, PDX_UVPT) && Pde(u, a, j) == Pde(v, a, j);
    EntryFlags(pp, 0);
  }

  /** passive_alloc backs a user page with a fresh cleared page, writable; in the window it makes an
      empty page table, so that no page is mapped. */
  lemma PassiveAllocKeeps(vm: Vm, a: nat, i: nat, j: nat)
    requires Inv(vm) && a in vm.spaces && !Valid(Pte(vm, a, i, j)) && Refillable(vm, a, i, j)
    ensures var r := PassiveAlloc(vm, a, i, j);
      && (r.Some? <==> Backable(i, j) && vm.free != [] && (i == PDX_UVPT || Valid(Pde(vm, a, i)) || |vm.free| > 1))
      && (r.Some? ==>
        (&& Inv(r.value) && r.value.spaces == vm.spaces && NoHit(r.value.tlb, i, j, a)
         && |r.value.tlb| == |vm.tlb| && Valid(Pte(r.value, a, i, j))
         && vm.free[0] < |r.value.phys| && r.value.phys[vm.free[0]] == Zeros()
         && ViewOf(r.value) ==
              if i == PDX_UVPT then ViewOf(vm) else ViewOf(vm)[Page(a, i, j) := Entry(vm.free[0], PTE_D)]))
  {
    if Backable(i, j) && vm.free != [] {
      if i == PDX_UVPT {
        WindowAllocKeeps(vm, a, j);
      } else {
        UserAllocKeeps(vm, a, i, j);
      }
    }
  }

  lemma UserAllocKeeps(vm: Vm, a: nat, i: nat, j: nat)
    requires Inv(vm) && a in vm.spaces && !Valid(Pte(vm, a, i, j)) && IsUser(i, j) && Backable(i, j) && vm.free != []
    ensures var r := PassiveAlloc(vm, a, i, j);
      && (r.Some? <==> Valid(Pde(vm, a, i)) || |vm.free| > 1)
      && (r.Some? ==>
        (&& Inv(r.value) && r.value.spaces == vm.spaces && NoHit(r.value.tlb, i, j, a)
         && |r.value.tlb| == |vm.tlb| && Valid(Pte(r.value, a, i, j))
         && vm.free[0] < |r.value.phys| && r.value.phys[vm.free[0]] == Zeros()
         && ViewOf(r.value) == ViewOf(vm)[Page(a, i, j) := Entry(vm.free[0], PTE_D)]))
  {
    AllocFresh(vm, a, i, j, PTE_D);
    InsertNoHit(PageAlloc(vm).0, a, i, j, vm.free[0], PTE_D);
    UserAllocIs(vm, a, i, j);
    if PassiveAlloc(vm, a, i, j).Some? {
      ViewedIsValid(PassiveAlloc(vm, a, i, j).value, Page(a, i, j));
    }
  }

  lemma UserAllocIs(vm: Vm, a: nat, i: nat, j: nat)
    requires a in vm.spaces && IsUser(i, j) && Backable(i, j) && vm.free != []
    ensures var (u, ok) := PageInsert(PageAlloc(vm).0, a, i, j, vm.free[0], PTE_D);
      PassiveAlloc(vm, a, i, j) == if ok then Some(u) else None
  {
  }

  lemma ViewedIsValid(vm: Vm, x: Page)
    requires x in ViewOf(vm)
    ensures Valid(Pte(vm, x.a, x.i, x.j))
  {
    assert x in Mapped(vm);
  }

  lemma WindowAllocKeeps(vm: Vm, a: nat, j: nat)
    requires Inv(vm) && a in vm.spaces && j < PDX_UTOP && !Valid(Pte(vm, a, PDX_UVPT, j)) && vm.free != []
    ensures PassiveAlloc(vm, a, PDX_UVPT, j).Some?
    ensures var u := PassiveAlloc(vm, a, PDX_UVPT, j).value;
      && Inv(u) && u.spaces == vm.spaces && NoHit(u.tlb, PDX_UVPT, j, a) && |u.tlb| == |vm.tlb|
      && Valid(Pte(u, a, PDX_UVPT, j)) && ViewOf(u) == ViewOf(vm)
      && vm.free[0] < |u.phys| && u.phys[vm.free[0]] == Zeros()
  {
    var v := Invalidate(vm, a, PDX_UVPT, j);
    WindowInsertIsWalk(vm, a, j);
    CoherentInvalidate(vm, a, PDX_UVPT, j);
    TlbOutNoHit(vm, PDX_UVPT, j, a);
    NewTableWalk(v, a, j);
    NewTableKeeps(v, a, j);
    SameView(vm, v);
    var u := PassiveAlloc(vm, a, PDX_UVPT, j).value;
    SameView(v, u);
    WindowIsDirectory(u, a, j);
    EntryFlags(vm.free[0], 0);
    AllocKeeps(v);
    assert Points(v, RootRef(a), v.spaces[a]);
    UnreferencedIfZero(v, vm.free[0]);
  }

  /** A user may also touch the window where it shows the directory above UVPT.  The page allocated for
      that is counted, but nothing that env_free looks at refers to it. */
  lemma WindowLeaks(vm: Vm, a: nat, j: nat)
    requires Inv(vm) && a in vm.spaces && j < WORDS && !Valid(Pte(vm, a, PDX_UVPT, j)) && vm.free != []
    ensures PassiveAlloc(vm, a, PDX_UVPT, j).Some?
    ensures Inv(PassiveAlloc(vm, a, PDX_UVPT, j).value) <==> j < PDX_UTOP
    ensures Exact(PassiveAlloc(vm, a, PDX_UVPT, j).value) <==> j < PDX_UTOP
  {
    WindowInsertIsWalk(vm, a, j);
    WindowIsDirectory(vm, a, j);
    if j < PDX_UTOP {
      WindowAllocKeeps(vm, a, j);
    } else {
      LeakedPage(vm, a, j);
    }
  }

  lemma LeakedPage(vm: Vm, a: nat, j: nat)
    requires Inv(vm) && a in vm.spaces && PDX_UTOP <= j < WORDS && !Valid(Pte(vm, a, PDX_UVPT, j)) && vm.free != []
    requires !Valid(Pde(vm, a, j)) && PassiveAlloc(vm, a, PDX_UVPT, j).Some?
    requires PassiveAlloc(vm, a, PDX_UVPT, j) == WalkCreate(Invalidate(vm, a, PDX_UVPT, j), a, j)
    ensures !Exact(PassiveAlloc(vm, a, PDX_UVPT, j).value)
  {
    var pp := vm.free[0];
    var v := Invalidate(vm, a, PDX_UVPT, j);
    CoherentInvalidate(vm, a, PDX_UVPT, j);
    AllocKeeps(v);
    var w := PageAlloc(v).0;
    var u := WalkCreate(v, a, j).value;
    forall x ensures !Points(u, x, pp) {
      LeakedWalk(w, u, a, j, pp, x);
      assert x !in Refs(w, pp);
    }
    assert Refs(u, pp) == {};
    assert u.refs[pp] == Inc(0) == 1;
  }

  /** A store to a directory above UTOP moves no table. */
  lemma HighPde(w: Vm, u: Vm, a: nat, j: nat, e: Word)
    requires Sound(w) && a in w.spaces && PDX_UTOP <= j
    requires u.spaces == w.spaces && u.phys == Poke(w.phys, w.spaces[a], j, e)
    ensures forall b: nat, k: nat :: k < PDX_UTOP ==> Pde(u, b, k) == Pde(w, b, k)
  {
    forall b: nat, k: nat | k < PDX_UTOP ensures Pde(u, b, k) == Pde(w, b, k) {
      if b in w.spaces {
        assert Points(w, RootRef(b), w.spaces[b]);
      }
    }
  }

  lemma LeakedWalk(w: Vm, u: Vm, a: nat, j: nat, pp: nat, x: Ref)
    requires Sound(w) && a in w.spaces && PDX_UTOP <= j
    requires u.spaces == w.spaces && u.phys == Poke(w.phys, w.spaces[a], j, Entry(pp, 0))
    ensures Points(u, x, pp) ==> Points(w, x, pp)
  {
    HighPde(w, u, a, j, Entry(pp, 0));
    if x.PteRef? && x.a in w.spaces && x.i < PDX_UTOP {
      HighPte(w, u, a, j, Entry(pp, 0), x.a, x.i, x.j);
    }
  }

  lemma HighPte(w: Vm, u: Vm, a: nat, j: nat, e: Word, b: nat, k: nat, l: nat)
    requires Sound(w) && a in w.spaces && PDX_UTOP <= j && b in w.spaces && k < PDX_UTOP
    requires u.spaces == w.spaces && u.phys == Poke(w.phys, w.spaces[a], j, e)
    ensures Pte(u, b, k, l) == Pte(w, b, k, l)
  {
    HighPde(w, u, a, j, e);
    assert Points(w, RootRef(a), w.spaces[a]);
    if Valid(Pde(w, b, k)) {
      assert Points(w, PdeRef(b, k), Pde(w, b, k).ppn);
    }
  }

  /** page_alloc then page_insert, as in passive_alloc and sys_mem_alloc: a fresh cleared page. */
  lemma AllocFresh(vm: Vm, a: nat, i: nat, j: nat, perm: bv12)
    requires Inv(vm) && a in vm.spaces && MayMap(i, j) && perm & PTE_G == 0 && vm.free != []
    ensures var v := PageAlloc(vm).0; var pp := vm.free[0];
      var (vm', ok) := PageInsert(v, a, i, j, pp, perm);
      && Inv(v) && WalksAlike(vm, v) && Inv(vm') && vm'.spaces == vm.spaces && DataKept(v, vm')
      && (forall p: nat :: Mappable(vm, p) ==> Mappable(v, p))
      && (ok <==> Valid(Pde(vm, a, i)) || |vm.free| > 1)
      && pp < |vm'.phys| && vm'.phys[pp] == Zeros()
      && ViewOf(vm') == (if ok then ViewOf(vm)[Page(a, i, j) := Entry(pp, perm)] else ViewOf(vm))
  {
    var v := PageAlloc(vm).0;
    var pp := vm.free[0];
    AllocKeeps(vm);
    SamePoints(vm, v);
    SameView(vm, v);
    UnreferencedIfZero(v, pp);
    assert Mappable(v, pp);
    InsertIsMapUpdate(v, a, i, j, pp, perm);
    assert forall p :: p in v.free ==> p in vm.free;
  }

  /** A refill keeps every invariant; it changes the view only by backing an unmapped user page. */
  lemma RefillKeeps(vm: Vm, a: nat, i: nat, j: nat, slot: nat)
    requires Inv(vm) && a in vm.spaces && Refillable(vm, a, i, j)
    ensures var r := Refill(vm, a, i, j, slot);
      r.Some? ==>
        (&& Inv(r.value) && r.value.spaces == vm.spaces
         && (Valid(Pte(vm, a, i, j)) || i == PDX_UVPT ==> ViewOf(r.value) == ViewOf(vm))
         && (!Valid(Pte(vm, a, i, j)) && i != PDX_UVPT ==>
              (vm.free != [] &&
               ViewOf(r.value) == ViewOf(vm)[Page(a, i, j) := Entry(vm.free[0], PTE_D)]))
         && slot < |r.value.tlb| && r.value.tlb[slot] == PairEntry(r.value, a, i, j))
  {
    var v := Invalidate(vm, a, i, j);
    CoherentInvalidate(vm, a, i, j);
    TlbOutNoHit(vm, i, j, a);
    SameView(vm, v);
    assert Pde(v, a, i) == Pde(vm, a, i) && Pte(v, a, i, j) == Pte(vm, a, i, j);
    var r := Backed(v, a, i, j);
    if !Valid(Pte(v, a, i, j)) {
      PassiveAllocKeeps(v, a, i, j);
    }
    if r.Some? && slot < |r.value.tlb| {
      var u := r.value;
      WritePairKeeps(u, a, i, j, slot);
      var w := u.(tlb := u.tlb[slot := PairEntry(u, a, i, j)]);
      assert Refill(vm, a, i, j, slot) == Some(w);
      assert forall b: nat, p: nat, q: nat :: Pte(w, b, p, q) == Pte(u, b, p, q);
    }
  }

  // ----- User stores -----

  /** A store through a writable translation changes one page's words and nothing else: no table,
      no count, no translation. */
  lemma StoreKeeps(vm: Vm, a: nat, i: nat, j: nat, off: nat, w: Word)
    requires Inv(vm) && a in vm.spaces
    ensures var vm' := UserStore(vm, a, i, j, off, w);
      Inv(vm') && ViewOf(vm') == ViewOf(vm) && vm'.spaces == vm.spaces && vm'.tlb == vm.tlb
      && vm'.free == vm.free && vm'.refs == vm.refs
      && (forall p :: 0 <= p < |vm.phys| && p != Pte(vm, a, i, j).ppn ==> vm'.phys[p] == vm.phys[p])
  {
    var e := Pte(vm, a, i, j);
    var vm' := UserStore(vm, a, i, j, off, w);
    if i < PDX_UTOP && j < WORDS && Valid(e) {
      assert Points(vm, PteRef(a, i, j), e.ppn);
      DataStore(vm, vm', e.ppn);
      SamePoints(vm, vm');
      SameCounts(vm, vm');
      SameView(vm, vm');
      forall b: nat, k: nat, l: nat | b in vm.spaces && (k < PDX_UTOP || k == PDX_UVPT)
        ensures Pte(vm', b, k, l) == Pte(vm, b, k, l)
      {
        if k == PDX_UVPT {
          WindowIsDirectory(vm, b, l);
          WindowIsDirectory(vm', b, l);
        }
      }
      CoherentStill(vm, vm');
    }
  }

  // ----- Whole runs -----

  datatype Op =
    | MemAlloc(a: nat, i: nat, j: nat, perm: bv12)
    | MemMap(a: nat, i: nat, j: nat, b: nat, k: nat, l: nat, perm: bv12)
    | MemUnmap(a: nat, i: nat, j: nat)
    | IpcSend(a: nat, i: nat, j: nat, b: nat, k: nat, l: nat, perm: bv12)
    | TlbRefill(a: nat, i: nat, j: nat, slot: nat)
    | Store(a: nat, i: nat, j: nat, off: nat, w: Word)
    | NewSpace(a: nat)
    | FreeSpace(a: nat)

  /** What a run must respect: live ASIDs (fresh for a new space), no PTE_G asked for, no touching of the
      window above UVPT, and fewer than 65535 references to a page that is mapped once more.  A page
      sent comes from an address that sys_ipc_try_send accepts, and goes to one that sys_ipc_recv
      accepts, 0 included. */
  predicate Allowed(vm: Vm, op: Op) {
    match op
    case MemAlloc(a, i, j, perm) => a in vm.spaces && perm & PTE_G == 0
    case MemMap(a, i, j, b, k, l, perm) =>
      && a in vm.spaces && b in vm.spaces && perm & PTE_G == 0
      && (match PageLookup(vm, a, i, j)
          case None => true
          case Some(pp) => pp < |vm.refs| && vm.refs[pp] < 0xffff)
    case MemUnmap(a, i, j) => a in vm.spaces
    case IpcSend(a, i, j, b, k, l, perm) =>
      && a in vm.spaces && b in vm.spaces && IsUser(i, j) && MayMap(k, l) && perm & PTE_G == 0
      && (match PageLookup(vm, a, i, j)
          case None => true
          case Some(pp) => pp < |vm.refs| && vm.refs[pp] < 0xffff)
    case TlbRefill(a, i, j, slot) => a in vm.spaces && Refillable(vm, a, i, j)
    case Store(a, i, j, off, w) => a in vm.spaces
    case NewSpace(a) => a !in vm.spaces && a < NASID
    case FreeSpace(a) => a in vm.spaces
  }

  function OrElse(r: Option<Vm>, vm: Vm): Vm { if r.Some? then r.value else vm }

  function Step(vm: Vm, op: Op): Vm
    requires Allowed(vm, op)
  {
    match op
    case MemAlloc(a, i, j, perm) => SysMemAlloc(vm, a, i, j, perm).0
    case MemMap(a, i, j, b, k, l, perm) => SysMemMap(vm, a, i, j, b, k, l, perm).0
    case MemUnmap(a, i, j) => SysMemUnmap(vm, a, i, j).0
    case IpcSend(a, i, j, b, k, l, perm) => IpcMap(vm, a, i, j, b, k, l, perm).0
    case TlbRefill(a, i, j, slot) => OrElse(Refill(vm, a, i, j, slot), vm)
    case Store(a, i, j, off, w) => UserStore(vm, a, i, j, off, w)
    case NewSpace(a) => OrElse(SetupVm(vm, a), vm)
    case FreeSpace(a) => EnvFree(vm, a)
  }

  lemma MemMapIsMapUpdate(vm: Vm, a: nat, i: nat, j: nat, b: nat, k: nat, l: nat, perm: bv12)
    requires Inv(vm) && Allowed(vm, MemMap(a, i, j, b, k, l, perm))
    ensures var (vm', ok) := SysMemMap(vm, a, i, j, b, k, l, perm);
      && Inv(vm') && DataKept(vm, vm') && vm'.spaces == vm.spaces
      && (ok ==>
           (&& IsUser(i, j) && Page(a, i, j) in ViewOf(vm)
            && ViewOf(vm') == ViewOf(vm)[Page(b, k, l) := Entry(ViewOf(vm)[Page(a, i, j)].ppn, perm)]))
      && (!ok ==> ViewOf(vm') == ViewOf(vm) && vm'.refs == vm.refs && vm'.free == vm.free)
  {
    if IsUser(i, j) && IsUser(k, l) {
      IpcSendIsMapUpdate(vm, a, i, j, b, k, l, perm);
    }
  }

  /** The page of a message: the same map update, at page 0 too; it happens iff the sender has the page
      and a table is there or can be made. */
  lemma IpcSendIsMapUpdate(vm: Vm, a: nat, i: nat, j: nat, b: nat, k: nat, l: nat, perm: bv12)
    requires Inv(vm) && Allowed(vm, IpcSend(a, i, j, b, k, l, perm))
    ensures var (vm', ok) := IpcMap(vm, a, i, j, b, k, l, perm);
      && Inv(vm') && DataKept(vm, vm') && vm'.spaces == vm.spaces
      && (ok <==> Page(a, i, j) in ViewOf(vm) && (Valid(Pde(vm, b, k)) || vm.free != []))
      && (ok ==> ViewOf(vm') == ViewOf(vm)[Page(b, k, l) := Entry(ViewOf(vm)[Page(a, i, j)].ppn, perm)])
      && (!ok ==> vm' == vm.(tlb := vm'.tlb) && ViewOf(vm') == ViewOf(vm))
  {
    LookupIsMapGet(vm, a, i, j);
    if Valid(Pte(vm, a, i, j)) {
      MappedIsMappable(vm, a, i, j);
      InsertIsMapUpdate(vm, b, k, l, PageLookup(vm, a, i, j).value, perm);
    }
  }

  lemma MappedIsMappable(vm: Vm, a: nat, i: nat, j: nat)
    requires Inv(vm) && a in vm.spaces && i < PDX_UTOP && j < WORDS && Valid(Pte(vm, a, i, j))
    ensures Mappable(vm, Pte(vm, a, i, j).ppn)
  {
    var pp := Pte(vm, a, i, j).ppn;
    assert Points(vm, PteRef(a, i, j), pp);
    if pp in vm.free {
      UnreferencedIfZero(vm, pp);
    }
  }

  lemma StepKeeps(vm: Vm, op: Op)
    requires Inv(vm) && Allowed(vm, op)
    ensures Inv(Step(vm, op))
  {
    match op
    case MemAlloc(a, i, j, perm) =>
      if IsUser(i, j) && vm.free != [] {
        AllocFresh(vm, a, i, j, perm);
      }
    case MemMap(a, i, j, b, k, l, perm) => MemMapIsMapUpdate(vm, a, i, j, b, k, l, perm);
    case MemUnmap(a, i, j) =>
      if IsUser(i, j) {
        RemoveIsMapRemove(vm, a, i, j);
      }
    case IpcSend(a, i, j, b, k, l, perm) => IpcSendIsMapUpdate(vm, a, i, j, b, k, l, perm);
    case TlbRefill(a, i, j, slot) => RefillKeeps(vm, a, i, j, slot);
    case Store(a, i, j, off, w) => StoreKeeps(vm, a, i, j, off, w);
    case NewSpace(a) =>
      if vm.free != [] {
        SetupKeeps(vm, a);
      }
    case FreeSpace(a) => EnvFreeReleases(vm, a);
  }

  predicate AllowedRun(vm: Vm, ops: seq<Op>)
    decreases |ops|
  {
    ops == [] || (Allowed(vm, ops[0]) && AllowedRun(Step(vm, ops[0]), ops[1..]))
  }

  function Run(vm: Vm, ops: seq<Op>): Vm
    requires AllowedRun(vm, ops)
    decreases |ops|
  {
    if ops == [] then vm else Run(Step(vm, ops[0]), ops[1..])
  }

  /** In every reachable state: reference counts are exact, free pages are unreferenced, tables are
      disjoint from each other and from user pages, and the TLB agrees with the tables. */
  lemma {:induction false} RunKeeps(vm: Vm, ops: seq<Op>)
    requires Inv(vm) && AllowedRun(vm, ops)
    ensures Inv(Run(vm, ops))
    decreases |ops|
  {
    if ops != [] {
      StepKeeps(vm, ops[0]);
      RunKeeps(Step(vm, ops[0]), ops[1..]);
    }
  }

  /** What the hardware translates through a cached pair is what the abstract map says; for pages 0 and
      1 of ASID 0, as long as page 0 of it has not been mapped. */
  lemma HardwareSeesTheMap(vm: Vm, k: nat, j: nat)
    requires Inv(vm) && k < |vm.tlb| && (ZeroPair(vm.tlb[k]) ==> ZeroClean(vm))
    requires j / 2 == vm.tlb[k].pair && vm.tlb[k].pdx < PDX_UTOP
    ensures var e := vm.tlb[k]; var h := if j % 2 == 0 then e.lo0 else e.lo1;
      Valid(h) ==> (Page(e.asid, e.pdx, j) in ViewOf(vm) && h == Hw(ViewOf(vm)[Page(e.asid, e.pdx, j)]))
  {
    var e := vm.tlb[k];
    assert EntryOk(vm, e);
    HwKeeps(Pte(vm, e.asid, e.pdx, j));
    EntryFlags(0, 0);
  }
}
