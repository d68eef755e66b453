/** Page 0 of ASID 0.  A TLB entry that tlb_out has cleared (kern/tlb_asm.S) answers for it, so that a
    live translation of it may outlast its page; and a message can map it (kern/syscall_all.c). */
module ZeroPage {
  import opened Basics
  import opened Mmu
  import opened PageTables
  import opened PageEffects
  import opened PageInvariants
  import opened PageMap
  import opened Spaces
  import opened VmRuns

  // ----- What the operations do to the TLB -----

  /** Entries were cleared, and no other changed. */
  ghost predicate Shrinks(t: seq<TlbEntry>, t': seq<TlbEntry>) {
    |t'| == |t| && forall k :: 0 <= k < |t| ==> t'[k] == t[k] || t'[k] == EMPTY
  }

  lemma TlbOutShrinks(t: seq<TlbEntry>, i: nat, j: nat, a: nat)
    ensures Shrinks(t, TlbOut(t, i, j, a))
  {
    var k := TlbOutFinds(t, i, j, a);
  }

  lemma RemoveShrinks(vm: Vm, a: nat, i: nat, j: nat)
    ensures Shrinks(vm.tlb, PageRemove(vm, a, i, j).tlb)
  {
    TlbOutShrinks(vm.tlb, i, j, a);
  }

  lemma InsertShrinks(vm: Vm, a: nat, i: nat, j: nat, pp: nat, perm: bv12)
    requires a in vm.spaces
    ensures Shrinks(vm.tlb, PageInsert(vm, a, i, j, pp, perm).0.tlb)
  {
    InsertTlb(vm, a, i, j, pp, perm);
    TlbOutShrinks(vm.tlb, i, j, a);
    TlbOutShrinks(TlbOut(vm.tlb, i, j, a), i, j, a);
  }

  /** page_insert flushes the page once, or after unmapping another there twice. */
  lemma InsertTlb(vm: Vm, a: nat, i: nat, j: nat, pp: nat, perm: bv12)
    requires a in vm.spaces
    ensures var t := PageInsert(vm, a, i, j, pp, perm).0.tlb;
      t == TlbOut(vm.tlb, i, j, a) || t == TlbOut(TlbOut(vm.tlb, i, j, a), i, j, a)
  {
  }

  lemma {:induction false} FreePtesShrinks(vm: Vm, a: nat, i: nat, j: nat)
    ensures Shrinks(vm.tlb, FreePtes(vm, a, i, j).tlb)
    decreases WORDS - j
  {
    if j < WORDS {
      RemoveShrinks(vm, a, i, j);
      FreePtesShrinks(if Valid(Pte(vm, a, i, j)) then PageRemove(vm, a, i, j) else vm, a, i, j + 1);
    }
  }

  lemma {:induction false} FreeTablesShrinks(vm: Vm, a: nat, i: nat)
    ensures Shrinks(vm.tlb, FreeTables(vm, a, i).tlb)
    decreases PDX_UTOP - i
  {
    if i < PDX_UTOP {
      FreePtesShrinks(vm, a, i, 0);
      TlbOutShrinks(FreePtes(vm, a, i, 0).tlb, PDX_UVPT, i, a);
      FreeTablesShrinks(FreeTable(vm, a, i), a, i + 1);
    }
  }

  lemma EnvFreeShrinks(vm: Vm, a: nat)
    ensures Shrinks(vm.tlb, EnvFree(vm, a).tlb)
  {
    FreeTablesShrinks(vm, a, 0);
    TlbOutShrinks(FreeTables(vm, a, 0).tlb, PDX_UVPT, PDX_UVPT, a);
  }

  // ----- When page 0 of ASID 0 stays clean -----

  lemma ZeroView(vm: Vm)
    requires Inv(vm)
    ensures Valid(Pte(vm, 0, 0, 0)) <==> Page(0, 0, 0) in ViewOf(vm)
  {
    EntryFlags(0, 0);
  }

  lemma CleanAfter(vm: Vm, vm': Vm)
    requires Inv(vm) && Inv(vm') && ZeroClean(vm) && Shrinks(vm.tlb, vm'.tlb)
    ensures ZeroClean(vm') <==> Page(0, 0, 0) !in ViewOf(vm')
  {
    ZeroView(vm');
    EntryFlags(0, 0);
  }

  lemma RefillClean(vm: Vm, a: nat, i: nat, j: nat, slot: nat)
    requires Inv(vm) && ZeroClean(vm) && Allowed(vm, TlbRefill(a, i, j, slot))
    ensures ZeroClean(Step(vm, TlbRefill(a, i, j, slot)))
  {
    var v := Invalidate(vm, a, i, j);
    var r := Backed(v, a, i, j);
    RefillKeeps(vm, a, i, j, slot);
    TlbOutShrinks(vm.tlb, i, j, a);
    CoherentInvalidate(vm, a, i, j);
    SameView(vm, v);
    CleanAfter(vm, v);
    ZeroView(vm);
    if r.Some? && slot < |r.value.tlb| {
      var u := r.value;
      if !Valid(Pte(v, a, i, j)) {
        PassiveAllocKeeps(v, a, i, j);
        AllocKeeps(v);
        InsertShrinks(PageAlloc(v).0, a, i, j, v.free[0], if i == PDX_UVPT then 0 else PTE_D);
        CleanAfter(v, u);
      }
      PairClean(u, a, i, j, slot);
    }
  }

  lemma PairClean(u: Vm, a: nat, i: nat, j: nat, slot: nat)
    requires Inv(u) && ZeroClean(u) && slot < |u.tlb|
    ensures ZeroClean(u.(tlb := u.tlb[slot := PairEntry(u, a, i, j)]))
  {
    var w := u.(tlb := u.tlb[slot := PairEntry(u, a, i, j)]);
    assert Pte(w, 0, 0, 0) == Pte(u, 0, 0, 0);
    HwKeeps(Pte(u, 0, 0, 0));
    HwKeeps(Pte(u, 0, 0, 1));
    EntryFlags(0, 0);
    assert !Valid(Pte(u, 0, 0, 1));
  }

  /** The one call that does not leave page 0 of ASID 0 clean is a message whose page goes there: one to
      the environment of ASID 0, received with destination 0. */
  lemma CleanIff(vm: Vm, op: Op)
    requires Inv(vm) && ZeroClean(vm) && Allowed(vm, op)
    ensures ZeroClean(Step(vm, op)) <==>
      !(op.IpcSend? && op.b == 0 && op.k == 0 && op.l == 0 && IpcMap(vm, op.a, op.i, op.j, op.b, op.k, op.l, op.perm).1)
  {
    StepKeeps(vm, op);
    ZeroView(vm);
    match op
    case MemAlloc(a, i, j, perm) => MemAllocClean(vm, op);
    case MemMap(a, i, j, b, k, l, perm) => MemMapClean(vm, op);
    case MemUnmap(a, i, j) =>
      if IsUser(i, j) {
        RemoveIsMapRemove(vm, a, i, j);
        RemoveShrinks(vm, a, i, j);
        CleanAfter(vm, Step(vm, op));
      }
    case IpcSend(a, i, j, b, k, l, perm) => IpcSendClean(vm, op);
    case TlbRefill(a, i, j, slot) => RefillClean(vm, a, i, j, slot);
    case Store(a, i, j, off, w) =>
      StoreKeeps(vm, a, i, j, off, w);
      CleanAfter(vm, Step(vm, op));
    case NewSpace(a) =>
      if vm.free != [] {
        SetupView(vm, a);
        SetupWalk(vm, a);
        CleanAfter(vm, Step(vm, op));
      }
    case FreeSpace(a) =>
      EnvFreeReleases(vm, a);
      EnvFreeShrinks(vm, a);
      CleanAfter(vm, Step(vm, op));
  }

  lemma MemAllocClean(vm: Vm, op: Op)
    requires Inv(vm) && ZeroClean(vm) && Allowed(vm, op) && op.MemAlloc?
    ensures ZeroClean(Step(vm, op))
  {
    if IsUser(op.i, op.j) && vm.free != [] {
      ZeroView(vm);
      AllocFresh(vm, op.a, op.i, op.j, op.perm);
      InsertShrinks(PageAlloc(vm).0, op.a, op.i, op.j, vm.free[0], op.perm);
      CleanAfter(vm, Step(vm, op));
    }
  }

  lemma MemMapClean(vm: Vm, op: Op)
    requires Inv(vm) && ZeroClean(vm) && Allowed(vm, op) && op.MemMap?
    ensures ZeroClean(Step(vm, op))
  {
    if IsUser(op.k, op.l) {
      ZeroView(vm);
      MemMapIsMapUpdate(vm, op.a, op.i, op.j, op.b, op.k, op.l, op.perm);
      if Valid(Pte(vm, op.a, op.i, op.j)) {
        InsertShrinks(vm, op.b, op.k, op.l, Pte(vm, op.a, op.i, op.j).ppn, op.perm);
      }
      CleanAfter(vm, Step(vm, op));
    }
  }

  lemma IpcSendClean(vm: Vm, op: Op)
    requires Inv(vm) && ZeroClean(vm) && Allowed(vm, op) && op.IpcSend?
    ensures ZeroClean(Step(vm, op)) <==>
      !(op.b == 0 && op.k == 0 && op.l == 0 && IpcMap(vm, op.a, op.i, op.j, op.b, op.k, op.l, op.perm).1)
  {
    ZeroView(vm);
    IpcSendIsMapUpdate(vm, op.a, op.i, op.j, op.b, op.k, op.l, op.perm);
    if Valid(Pte(vm, op.a, op.i, op.j)) {
      InsertShrinks(vm, op.b, op.k, op.l, Pte(vm, op.a, op.i, op.j).ppn, op.perm);
    }
    CleanAfter(vm, Step(vm, op));
  }

  // ----- What happens where it does not -----

  /** A cleared entry stands before a live one of that pair: no probe finds the live one. */
  ghost predicate Hidden(t: seq<TlbEntry>, s: nat, slot: nat, e: TlbEntry) {
    s < slot < |t| && t[s] == EMPTY && t[slot] == e && ZeroPair(e) && !Global(e.lo0)
  }

  lemma TlbOutMisses(t: seq<TlbEntry>, i: nat, j: nat, a: nat, s: nat, slot: nat, e: TlbEntry)
    requires Hidden(t, s, slot, e)
    ensures Hidden(TlbOut(t, i, j, a), s, slot, e)
  {
    var k := TlbOutFinds(t, i, j, a);
    EntryFlags(0, 0);
    assert k <= s || !Hits(t[s], i, j / 2, a);
  }

  lemma {:induction false} FreePtesMiss(vm: Vm, a: nat, i: nat, j: nat, s: nat, slot: nat, e: TlbEntry)
    requires Hidden(vm.tlb, s, slot, e)
    ensures Hidden(FreePtes(vm, a, i, j).tlb, s, slot, e)
    decreases WORDS - j
  {
    if j < WORDS {
      TlbOutMisses(vm.tlb, i, j, a, s, slot, e);
      FreePtesMiss(if Valid(Pte(vm, a, i, j)) then PageRemove(vm, a, i, j) else vm, a, i, j + 1, s, slot, e);
    }
  }

  lemma {:induction false} FreeTablesMiss(vm: Vm, a: nat, i: nat, s: nat, slot: nat, e: TlbEntry)
    requires Hidden(vm.tlb, s, slot, e)
    ensures Hidden(FreeTables(vm, a, i).tlb, s, slot, e)
    decreases PDX_UTOP - i
  {
    if i < PDX_UTOP {
      FreePtesMiss(vm, a, i, 0, s, slot, e);
      TlbOutMisses(FreePtes(vm, a, i, 0).tlb, PDX_UVPT, i, a, s, slot, e);
      FreeTablesMiss(FreeTable(vm, a, i), a, i + 1, s, slot, e);
    }
  }

  lemma EnvFreeMisses(vm: Vm, a: nat, s: nat, slot: nat, e: TlbEntry)
    requires Hidden(vm.tlb, s, slot, e)
    ensures Hidden(EnvFree(vm, a).tlb, s, slot, e)
  {
    FreeTablesMiss(vm, a, 0, s, slot, e);
    TlbOutMisses(FreeTables(vm, a, 0).tlb, PDX_UVPT, PDX_UVPT, a, s, slot, e);
  }

  /** ASID 0 is in use and its page 0 not mapped, yet the hardware translates it, to page `pp`. */
  ghost predicate Haunted(u: Vm, slot: nat, pp: nat) {
    && Inv(u) && 0 in u.spaces && Page(0, 0, 0) !in ViewOf(u)
    && slot < |u.tlb| && ZeroPair(u.tlb[slot]) && Valid(u.tlb[slot].lo0) && u.tlb[slot].lo0.ppn == pp
  }

  lemma RefillHides(vm: Vm, s: nat, slot: nat)
    requires Inv(vm) && 0 in vm.spaces && Valid(Pte(vm, 0, 0, 0)) && s < slot < |vm.tlb| && vm.tlb[s] == EMPTY
    ensures Refill(vm, 0, 0, 0, slot).Some?
    ensures var r := Refill(vm, 0, 0, 0, slot).value; var e := PairEntry(vm, 0, 0, 0);
      Inv(r) && r.spaces == vm.spaces && Hidden(r.tlb, s, slot, e) && Valid(e.lo0) && e.lo0.ppn == Pte(vm, 0, 0, 0).ppn
  {
    var v := Invalidate(vm, 0, 0, 0);
    CoherentInvalidate(vm, 0, 0, 0);
    TlbOutShrinks(vm.tlb, 0, 0, 0);
    RefillKeeps(vm, 0, 0, 0, slot);
    assert Pte(v, 0, 0, 0) == Pte(vm, 0, 0, 0) && Pte(v, 0, 0, 1) == Pte(vm, 0, 0, 1);
    HwKeeps(Pte(v, 0, 0, 0));
    EntryFlags(0, 0);
  }

  lemma RootFreed(r: Vm, a: nat)
    requires Inv(r) && a in r.spaces
    ensures EnvFree(r, a).free != []
  {
    var p := r.spaces[a];
    EnvFreeReleases(r, a);
    assert Points(r, RootRef(a), p);
    assert RootRef(a) in Refs(r, p);
    OnlyRoot(r, a);
    assert p in EnvFree(r, a).free;
  }

  lemma OnlyRoot(r: Vm, a: nat)
    requires Inv(r) && a in r.spaces
    ensures forall x :: x in Refs(r, r.spaces[a]) ==> x.a == a
  {
    assert Points(r, RootRef(a), r.spaces[a]);
  }

  lemma ReuseHaunts(r: Vm, s: nat, slot: nat, e: TlbEntry)
    requires Inv(r) && 0 in r.spaces && Hidden(r.tlb, s, slot, e) && Valid(e.lo0)
    ensures 0 !in EnvFree(r, 0).spaces && SetupVm(EnvFree(r, 0), 0).Some?
    ensures Haunted(SetupVm(EnvFree(r, 0), 0).value, slot, e.lo0.ppn)
  {
    var w := EnvFree(r, 0);
    EnvFreeReleases(r, 0);
    EnvFreeMisses(r, 0, s, slot, e);
    RootFreed(r, 0);
    SetupKeeps(w, 0);
    SetupView(w, 0);
    SetupWalk(w, 0);
  }

  /** The operations of a run, taken apart. */
  lemma RunFirst(vm: Vm, op: Op, ops: seq<Op>)
    requires Allowed(vm, op) && AllowedRun(Step(vm, op), ops)
    ensures AllowedRun(vm, [op] + ops) && Run(vm, [op] + ops) == Run(Step(vm, op), ops)
  {
    assert ([op] + ops)[1..] == ops;
  }

  /** Page 0 of ASID 0 is used, its environment dies, and the ASID is given out again. */
  function Reuse(slot: nat): seq<Op> { [TlbRefill(0, 0, 0, slot)] + ([FreeSpace(0)] + ([NewSpace(0)] + [])) }

  /** Then the hardware still translates the page for the new environment, which has not mapped it. */
  lemma StaleTranslation(vm: Vm, s: nat, slot: nat)
    requires Inv(vm) && 0 in vm.spaces && Valid(Pte(vm, 0, 0, 0)) && s < slot < |vm.tlb| && vm.tlb[s] == EMPTY
    ensures AllowedRun(vm, Reuse(slot)) && Haunted(Run(vm, Reuse(slot)), slot, Pte(vm, 0, 0, 0).ppn)
  {
    RefillHides(vm, s, slot);
    var r := Step(vm, TlbRefill(0, 0, 0, slot));
    ReuseHaunts(r, s, slot, PairEntry(vm, 0, 0, 0));
    RunFirst(EnvFree(r, 0), NewSpace(0), []);
    RunFirst(r, FreeSpace(0), [NewSpace(0)] + []);
    RunFirst(vm, TlbRefill(0, 0, 0, slot), [FreeSpace(0)] + ([NewSpace(0)] + []));
  }

  /** And a message leads there: from any state with a cleared entry somewhere in the TLB, a page sent to
      the environment of ASID 0 that waits without a destination. */
  lemma SendLeavesStale(vm: Vm, a: nat, i: nat, j: nat, perm: bv12, s: nat, slot: nat)
    requires Inv(vm) && 0 in vm.spaces && Allowed(vm, IpcSend(a, i, j, 0, 0, 0, perm))
    requires Page(a, i, j) in ViewOf(vm) && (Valid(Pde(vm, 0, 0)) || vm.free != [])
    requires s < slot < |vm.tlb| && vm.tlb[s] == EMPTY
    ensures var ops := [IpcSend(a, i, j, 0, 0, 0, perm)] + Reuse(slot);
      AllowedRun(vm, ops) && Haunted(Run(vm, ops), slot, Pte(vm, a, i, j).ppn)
  {
    SendMaps(vm, a, i, j, perm);
    InsertShrinks(vm, 0, 0, 0, Pte(vm, a, i, j).ppn, perm);
    StaleTranslation(IpcMap(vm, a, i, j, 0, 0, 0, perm).0, s, slot);
    RunFirst(vm, IpcSend(a, i, j, 0, 0, 0, perm), Reuse(slot));
  }

  lemma SendMaps(vm: Vm, a: nat, i: nat, j: nat, perm: bv12)
    requires Inv(vm) && 0 in vm.spaces && Allowed(vm, IpcSend(a, i, j, 0, 0, 0, perm))
    requires Page(a, i, j) in ViewOf(vm) && (Valid(Pde(vm, 0, 0)) || vm.free != [])
    ensures var v := IpcMap(vm, a, i, j, 0, 0, 0, perm).0; var pp := Pte(vm, a, i, j).ppn;
      && Valid(Pte(vm, a, i, j)) && v == PageInsert(vm, 0, 0, 0, pp, perm).0
      && Inv(v) && v.spaces == vm.spaces && Pte(v, 0, 0, 0) == Entry(pp, perm) && Valid(Pte(v, 0, 0, 0))
  {
    IpcSendIsMapUpdate(vm, a, i, j, 0, 0, 0, perm);
    ViewedIsValid(vm, Page(a, i, j));
    var v := IpcMap(vm, a, i, j, 0, 0, 0, perm).0;
    assert ViewOf(v)[Page(0, 0, 0)] == Entry(Pte(vm, a, i, j).ppn, perm);
    ViewedIsValid(v, Page(0, 0, 0));
  }
}
