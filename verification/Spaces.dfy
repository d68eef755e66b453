/** Creating and freeing address spaces (kern/env.c): env_setup_vm and env_free. */
module Spaces {
  import opened Basics
  import opened Mmu
  import opened PageTables
  import opened PageEffects
  import opened PageInvariants
  import opened PageMap

  // ----- env_setup_vm -----

  lemma SetupWalk(vm: Vm, a: nat)
    requires Inv(vm) && a !in vm.spaces && a < NASID && vm.free != []
    ensures SetupVm(vm, a).Some?
    ensures var vm' := SetupVm(vm, a).value; var pp := vm.free[0];
      && Shape(vm') && vm'.spaces == vm.spaces[a := pp] && vm'.tlb == vm.tlb && vm'.base == vm.base
      && vm'.kernel == vm.kernel && |vm'.phys| == |vm.phys|
      && vm'.free == vm.free[1..] && vm'.refs == IncRef(vm, pp).refs
      && (forall q :: 0 <= q < |vm.phys| && q != pp ==> vm'.phys[q] == vm.phys[q])
      && (forall i: nat :: Pde(vm', a, i) ==
           if i == PDX_UTOP || i == PDX_UTOP + 1 then Load(vm.phys, vm.base, i)
           else if i == PDX_UVPT then Word(pp, PTE_V) else ZERO)
      && pp !in vm.kernel && pp < |vm.phys| && vm.refs[pp] == 0
      && (forall k: nat :: Load(vm'.phys, vm.base, k) == Load(vm.phys, vm.base, k))
  {
    var pp := vm.free[0];
    assert pp in vm.free;
    AllocKeeps(vm);
  }

  lemma SetupOthers(vm: Vm, a: nat)
    requires Inv(vm) && a !in vm.spaces && a < NASID && vm.free != []
    ensures SetupVm(vm, a).Some?
    ensures var vm' := SetupVm(vm, a).value;
      && (forall b: nat, k: nat :: b != a ==> Pde(vm', b, k) == Pde(vm, b, k))
      && (forall b: nat, k: nat, l: nat :: b != a && k < PDX_UTOP ==> Pte(vm', b, k, l) == Pte(vm, b, k, l))
      && DataKept(vm, vm')
  {
    SetupWalk(vm, a);
    var vm' := SetupVm(vm, a).value;
    var pp := vm.free[0];
    assert pp in vm.free;
    UnreferencedIfZero(vm, pp);
    forall b: nat, k: nat | b != a ensures Pde(vm', b, k) == Pde(vm, b, k) {
      if b in vm.spaces {
        assert Points(vm, RootRef(b), vm.spaces[b]);
      }
    }
    forall b: nat, k: nat, l: nat | b != a && k < PDX_UTOP ensures Pte(vm', b, k, l) == Pte(vm, b, k, l) {
      if b in vm.spaces && Valid(Pde(vm, b, k)) {
        assert Points(vm, PdeRef(b, k), Pde(vm, b, k).ppn);
      }
    }
  }

  lemma SetupDirectories(vm: Vm, a: nat)
    requires Inv(vm) && a !in vm.spaces && a < NASID && vm.free != []
    ensures SetupVm(vm, a).Some? && Directories(SetupVm(vm, a).value)
  {
    SetupWalk(vm, a);
    SetupOthers(vm, a);
    EntryFlags(0, 0);
    var vm' := SetupVm(vm, a).value;
    forall k: nat, l: nat | k < PDX_UTOP ensures Pte(vm', a, k, l) == ZERO {
    }
  }

  /** A new space maps no user page, takes the first free page for its directory, and disturbs no
      other space. */
  lemma SetupKeeps(vm: Vm, a: nat)
    requires Inv(vm) && a !in vm.spaces && a < NASID && vm.free != []
    ensures SetupVm(vm, a).Some?
    ensures var vm' := SetupVm(vm, a).value;
      && Inv(vm') && vm'.spaces == vm.spaces[a := vm.free[0]] && DataKept(vm, vm')
      && Gains(vm, vm', RootRef(a), vm.free[0])
  {
    SetupWalk(vm, a);
    SetupOthers(vm, a);
    SetupDirectories(vm, a);
    var vm' := SetupVm(vm, a).value;
    SetupRefs(vm, vm', a, vm.free[0]);
    SetupCoherent(vm, vm', a);
  }

  lemma SetupView(vm: Vm, a: nat)
    requires Inv(vm) && a !in vm.spaces && a < NASID && vm.free != []
    ensures SetupVm(vm, a).Some? && ViewOf(SetupVm(vm, a).value) == ViewOf(vm)
  {
    SetupWalk(vm, a);
    SetupOthers(vm, a);
    EntryFlags(0, 0);
    assert Mapped(SetupVm(vm, a).value) == Mapped(vm);
  }

  lemma SetupRefs(vm: Vm, vm': Vm, a: nat, pp: nat)
    requires Inv(vm) && a !in vm.spaces && vm.free != [] && pp == vm.free[0]
    requires vm'.spaces == vm.spaces[a := pp] && |vm'.phys| == |vm.phys| && vm'.kernel == vm.kernel
    requires forall b: nat, k: nat :: b != a ==> Pde(vm', b, k) == Pde(vm, b, k)
    requires forall b: nat, k: nat, l: nat :: b != a && k < PDX_UTOP ==> Pte(vm', b, k, l) == Pte(vm, b, k, l)
    requires forall i: nat :: i < PDX_UTOP ==> Pde(vm', a, i) == ZERO
    requires vm'.free == vm.free[1..] && vm'.refs == IncRef(vm, pp).refs
    ensures Separate(vm') && Exact(vm') && FreeListOk(vm') && Gains(vm, vm', RootRef(a), pp)
  {
    EntryFlags(0, 0);
    var v := PageAlloc(vm).0;
    AllocKeeps(vm);
    SamePoints(vm, v);
    assert Gains(v, vm', RootRef(a), pp);
    GainKeeps(v, vm', RootRef(a), pp);
  }

  lemma SetupCoherent(vm: Vm, vm': Vm, a: nat)
    requires Inv(vm) && Shape(vm') && Directories(vm') && a !in vm.spaces && vm'.tlb == vm.tlb
    requires vm.spaces.Keys <= vm'.spaces.Keys
    requires forall k: nat :: Load(vm'.phys, vm'.base, k) == Load(vm.phys, vm.base, k)
    requires forall b: nat, k: nat :: b != a ==> Pde(vm', b, k) == Pde(vm, b, k)
    requires forall b: nat, k: nat, l: nat :: b != a && k < PDX_UTOP ==> Pte(vm', b, k, l) == Pte(vm, b, k, l)
    ensures Coherent(vm')
  {
    forall b: nat, k: nat, l: nat | b in vm.spaces && (k < PDX_UTOP || k == PDX_UVPT)
      ensures Pte(vm', b, k, l) == Pte(vm, b, k, l)
    {
      if k == PDX_UVPT {
        WindowIsDirectory(vm, b, l);
        WindowIsDirectory(vm', b, l);
      }
    }
    CoherentStill(vm, vm');
  }

  // ----- env_free -----

  /** A page is free afterwards iff it was free before, or had references and lost them all. */
  ghost predicate Freed(vm: Vm, vm': Vm) {
    forall p: nat :: p in vm'.free <==> p in vm.free || (Refs(vm, p) != {} && Refs(vm', p) == {})
  }

  /** Exactly the references in which `gone` holds have disappeared, and their pages were freed. */
  ghost predicate Released(vm: Vm, vm': Vm, gone: Ref -> bool) {
    && Inv(vm') && Freed(vm, vm')
    && (forall x, p: nat :: Points(vm', x, p) <==> Points(vm, x, p) && !gone(x))
  }

  lemma LossFrees(vm: Vm, vm': Vm, x: Ref, q: nat)
    requires Inv(vm) && Loses(vm, vm', x, q)
    requires vm'.free == (if Refs(vm, q) == {x} then [q] else []) + vm.free
    ensures Freed(vm, vm')
  {
    LosesCount(vm, vm', x, q);
    assert x in Refs(vm, q);
  }

  lemma ReleasedTwice(v0: Vm, v1: Vm, v2: Vm, g: Ref -> bool, h: Ref -> bool, k: Ref -> bool)
    requires Released(v0, v1, g) && Released(v1, v2, h)
    requires forall x :: k(x) <==> g(x) || h(x)
    ensures Released(v0, v2, k)
  {
    forall p: nat ensures Refs(v2, p) <= Refs(v1, p) <= Refs(v0, p) {
    }
  }

  function FromTable(a: nat, i: nat, j: nat): Ref -> bool {
    (x: Ref) => x.PteRef? && x.a == a && x.i == i && j <= x.j
  }

  function Only(y: Ref): Ref -> bool {
    (x: Ref) => x == y
  }

  function FromDirectory(a: nat, i: nat): Ref -> bool {
    (x: Ref) => !x.RootRef? && x.a == a && i <= x.i
  }

  lemma ReleasedNothing(vm: Vm, gone: Ref -> bool)
    requires Inv(vm) && forall x, p: nat :: Points(vm, x, p) ==> !gone(x)
    ensures Released(vm, vm, gone)
  {
  }

  /** The inner loop: every entry of the table from `j` up is unmapped, and nothing else. */
  lemma {:induction false} FreePtesReleases(vm: Vm, a: nat, i: nat, j: nat)
    requires Inv(vm) && a in vm.spaces && i < PDX_UTOP && j <= WORDS
    ensures var v := FreePtes(vm, a, i, j);
      && Released(vm, v, FromTable(a, i, j)) && v.spaces == vm.spaces
      && (forall b: nat, k: nat :: Pde(v, b, k) == Pde(vm, b, k))
      && (forall b: nat, k: nat, l: nat :: k < PDX_UTOP ==>
           Pte(v, b, k, l) == if b == a && k == i && j <= l then ZERO else Pte(vm, b, k, l))
    decreases WORDS - j
  {
    if j == WORDS {
      ReleasedNothing(vm, FromTable(a, i, j));
      forall l: nat | WORDS <= l ensures Pte(vm, a, i, l) == ZERO {
        EntryFlags(0, 0);
        assert !MayMap(i, l);
      }
    } else {
      var u := if Valid(Pte(vm, a, i, j)) then PageRemove(vm, a, i, j) else vm;
      var one := Only(PteRef(a, i, j));
      if Valid(Pte(vm, a, i, j)) {
        RemoveEntries(vm, a, i, j);
        RemoveKeeps(vm, a, i, j);
        LossFrees(vm, u, PteRef(a, i, j), Pte(vm, a, i, j).ppn);
      } else {
        ReleasedNothing(vm, one);
      }
      FreePtesReleases(u, a, i, j + 1);
      ReleasedTwice(vm, u, FreePtes(u, a, i, j + 1), one, FromTable(a, i, j + 1), FromTable(a, i, j));
    }
  }

  lemma DropTableEntries(vm: Vm, a: nat, i: nat)
    requires Sound(vm) && a in vm.spaces && i < PDX_UTOP && Valid(Pde(vm, a, i))
    requires forall j: nat :: Pte(vm, a, i, j) == ZERO
    ensures var vm' := DropTable(vm, a, i);
      && Shape(vm') && vm'.spaces == vm.spaces && vm'.base == vm.base && vm'.kernel == vm.kernel
      && |vm'.phys| == |vm.phys|
      && (forall k: nat :: Load(vm'.phys, vm.base, k) == Load(vm.phys, vm.base, k))
      && (forall b: nat, k: nat :: Pde(vm', b, k) == if b == a && k == i then ZERO else Pde(vm, b, k))
      && (forall b: nat, k: nat, l: nat :: k < PDX_UTOP ==> Pte(vm', b, k, l) == Pte(vm, b, k, l))
  {
    var u := vm.(phys := Poke(vm.phys, vm.spaces[a], i, ZERO));
    SetPdeEffect(vm, u, a, i, ZERO);
    EntryFlags(0, 0);
    SameWalk(u, DropTable(vm, a, i));
  }

  lemma DropTableWalk(vm: Vm, a: nat, i: nat)
    requires Sound(vm) && a in vm.spaces && i < PDX_UTOP && Valid(Pde(vm, a, i))
    requires forall j: nat :: Pte(vm, a, i, j) == ZERO
    ensures Directories(DropTable(vm, a, i))
    ensures Loses(vm, DropTable(vm, a, i), PdeRef(a, i), Pde(vm, a, i).ppn)
  {
    DropTableEntries(vm, a, i);
    EntryFlags(0, 0);
    assert Points(vm, PdeRef(a, i), Pde(vm, a, i).ppn);
  }

  /** Dropping an emptied page table frees its page. */
  lemma DropTableReleases(vm: Vm, a: nat, i: nat)
    requires Inv(vm) && a in vm.spaces && i < PDX_UTOP && Valid(Pde(vm, a, i))
    requires forall j: nat :: Pte(vm, a, i, j) == ZERO
    ensures Released(vm, DropTable(vm, a, i), Only(PdeRef(a, i)))
  {
    var vm' := DropTable(vm, a, i);
    var t := Pde(vm, a, i).ppn;
    var x := PdeRef(a, i);
    DropTableEntries(vm, a, i);
    DropTableWalk(vm, a, i);
    LossKeeps(vm, vm', x, t);
    LossFrees(vm, vm', x, t);
    forall b: nat, k: nat, l: nat |
      b in vm.spaces && (k < PDX_UTOP || k == PDX_UVPT) && !(b == a && k == PDX_UVPT && l / 2 == i / 2)
      ensures Pte(vm', b, k, l) == Pte(vm, b, k, l)
    {
      if k == PDX_UVPT {
        WindowIsDirectory(vm, b, l);
        WindowIsDirectory(vm', b, l);
      }
    }
    CoherentAfter(vm, vm', a, PDX_UVPT, i);
  }

  function FromEntry(a: nat, i: nat): Ref -> bool {
    (x: Ref) => !x.RootRef? && x.a == a && x.i == i
  }

  lemma EntryParts(a: nat, i: nat)
    ensures forall x :: FromEntry(a, i)(x) <==> FromTable(a, i, 0)(x) || Only(PdeRef(a, i))(x)
  {
  }

  /** One round of the outer loop drops table `i` and all it maps. */
  lemma FreeTableReleases(vm: Vm, a: nat, i: nat)
    requires Inv(vm) && a in vm.spaces && i < PDX_UTOP
    ensures Released(vm, FreeTable(vm, a, i), FromEntry(a, i))
  {
    EntryFlags(0, 0);
    if Valid(Pde(vm, a, i)) {
      var u := FreePtes(vm, a, i, 0);
      FreePtesReleases(vm, a, i, 0);
      DropTableReleases(u, a, i);
      EntryParts(a, i);
      ReleasedTwice(vm, u, DropTable(u, a, i), FromTable(a, i, 0), Only(PdeRef(a, i)), FromEntry(a, i));
    } else {
      ReleasedNothing(vm, FromEntry(a, i));
    }
  }

  lemma FreeTableWalk(vm: Vm, a: nat, i: nat)
    requires Inv(vm) && a in vm.spaces && i < PDX_UTOP
    ensures var w := FreeTable(vm, a, i);
      && w.spaces == vm.spaces && Pde(w, a, i) == ZERO
      && (forall b: nat, k: nat :: !(b == a && k == i) ==> Pde(w, b, k) == Pde(vm, b, k))
      && (forall b: nat, k: nat, l: nat :: k < PDX_UTOP && b != a ==> Pte(w, b, k, l) == Pte(vm, b, k, l))
  {
    if Valid(Pde(vm, a, i)) {
      FreePtesReleases(vm, a, i, 0);
      DropTableEntries(FreePtes(vm, a, i, 0), a, i);
    }
  }

  lemma DirectoryParts(a: nat, i: nat)
    ensures forall x :: FromDirectory(a, i)(x) <==> FromEntry(a, i)(x) || FromDirectory(a, i + 1)(x)
  {
  }

  /** The outer loop: it drops every table from entry `i` up to UTOP, with all it maps. */
  lemma {:induction false} FreeTablesReleases(vm: Vm, a: nat, i: nat)
    requires Inv(vm) && a in vm.spaces && i <= PDX_UTOP
    ensures Released(vm, FreeTables(vm, a, i), FromDirectory(a, i))
    decreases PDX_UTOP - i
  {
    if i == PDX_UTOP {
      ReleasedNothing(vm, FromDirectory(a, i));
    } else {
      var w := FreeTable(vm, a, i);
      FreeTableWalk(vm, a, i);
      FreeTableReleases(vm, a, i);
      FreeTablesReleases(w, a, i + 1);
      DirectoryParts(a, i);
      ReleasedTwice(vm, w, FreeTables(w, a, i + 1), FromEntry(a, i), FromDirectory(a, i + 1), FromDirectory(a, i));
    }
  }

  lemma {:induction false} FreeTablesWalk(vm: Vm, a: nat, i: nat)
    requires Inv(vm) && a in vm.spaces && i <= PDX_UTOP
    ensures var v := FreeTables(vm, a, i);
      && v.spaces == vm.spaces
      && (forall b: nat, k: nat :: b != a || k < i || PDX_UTOP <= k ==> Pde(v, b, k) == Pde(vm, b, k))
      && (forall k: nat :: i <= k < PDX_UTOP ==> Pde(v, a, k) == ZERO)
      && (forall b: nat, k: nat, l: nat :: k < PDX_UTOP && b != a ==> Pte(v, b, k, l) == Pte(vm, b, k, l))
    decreases PDX_UTOP - i
  {
    if i < PDX_UTOP {
      FreeTableWalk(vm, a, i);
      FreeTableReleases(vm, a, i);
      FreeTablesWalk(FreeTable(vm, a, i), a, i + 1);
    }
  }

  function Owned(a: nat): Ref -> bool {
    (x: Ref) => x.a == a
  }

  lemma WithoutSpace(vm: Vm, v: Vm, a: nat)
    requires v.phys == vm.phys && v.spaces == vm.spaces - {a}
    ensures forall b: nat, k: nat :: b != a ==> Pde(v, b, k) == Pde(vm, b, k)
    ensures forall b: nat, k: nat, l: nat :: b != a ==> Pte(v, b, k, l) == Pte(vm, b, k, l)
    ensures forall y, p: nat :: Points(v, y, p) <==> Points(vm, y, p) && y.a != a
  {
    forall b: nat, k: nat, l: nat | b != a ensures Pte(v, b, k, l) == Pte(vm, b, k, l) {
      assert Pde(v, b, k) == Pde(vm, b, k);
    }
  }

  lemma DropSpaceWalk(vm: Vm, a: nat)
    requires Sound(vm) && Exact(vm) && a in vm.spaces
    requires forall k: nat :: k < PDX_UTOP ==> Pde(vm, a, k) == ZERO
    ensures var v := DropSpace(vm, a);
      && Shape(v) && Directories(v) && v.spaces == vm.spaces - {a} && v.phys == vm.phys
      && v.kernel == vm.kernel && v.base == vm.base
      && Loses(vm, v, RootRef(a), vm.spaces[a])
  {
    var v := DropSpace(vm, a);
    WithoutSpace(vm, v, a);
    EntryFlags(0, 0);
    assert Points(vm, RootRef(a), vm.spaces[a]);
    forall y, p: nat | Points(vm, y, p) ensures y.a == a <==> y == RootRef(a) {
    }
  }

  lemma DropSpaceCoherent(vm: Vm, a: nat)
    requires Inv(vm) && a in vm.spaces && forall k: nat :: k < PDX_UTOP ==> Pde(vm, a, k) == ZERO
    ensures Coherent(DropSpace(vm, a))
  {
    var v := DropSpace(vm, a);
    DropSpaceWalk(vm, a);
    WithoutSpace(vm, v, a);
    EntryFlags(0, 0);
    forall b: nat, k: nat, l: nat |
      b in vm.spaces && (k < PDX_UTOP || k == PDX_UVPT) && !Common(k, l) && Valid(Pte(vm, b, k, l)) &&
      !(b == a && k == PDX_UVPT && l / 2 == PDX_UVPT / 2)
      ensures b in v.spaces && Pte(v, b, k, l) == Pte(vm, b, k, l)
    {
      if b == a && k == PDX_UVPT {
        WindowIsDirectory(vm, a, l);
      }
    }
    CoherentAfter(vm, v, a, PDX_UVPT, PDX_UVPT);
  }

  lemma DropSpaceReleases(vm: Vm, a: nat)
    requires Inv(vm) && a in vm.spaces && forall k: nat :: k < PDX_UTOP ==> Pde(vm, a, k) == ZERO
    ensures Released(vm, DropSpace(vm, a), Owned(a))
  {
    var v := DropSpace(vm, a);
    DropSpaceWalk(vm, a);
    DropSpaceCoherent(vm, a);
    LossKeeps(vm, v, RootRef(a), vm.spaces[a]);
    LossFrees(vm, v, RootRef(a), vm.spaces[a]);
    forall x, p: nat | Points(vm, x, p) ensures Owned(a)(x) <==> x == RootRef(a) {
      EntryFlags(0, 0);
    }
  }

  /** env_free: the ASID is gone, every reference of the dead space is gone and no other, and the
      pages returned to the free list are exactly those that only this space referenced. */
  lemma EnvFreeReleases(vm: Vm, a: nat)
    requires Inv(vm) && a in vm.spaces
    ensures var v := EnvFree(vm, a);
      && Inv(v) && v.spaces == vm.spaces - {a}
      && (forall p: nat :: p in v.free <==>
           p in vm.free || (Refs(vm, p) != {} && forall x :: x in Refs(vm, p) ==> x.a == a))
      && (forall x, p: nat :: Points(v, x, p) <==> Points(vm, x, p) && x.a != a)
      && (forall b: nat, k: nat, l: nat :: b != a && k < PDX_UTOP ==> Pte(v, b, k, l) == Pte(vm, b, k, l))
  {
    var u := FreeTables(vm, a, 0);
    FreeTablesReleases(vm, a, 0);
    FreeTablesWalk(vm, a, 0);
    var v := DropSpace(u, a);
    DropSpaceWalk(u, a);
    WithoutSpace(u, v, a);
    DropSpaceReleases(u, a);
    ReleasedTwice(vm, u, v, FromDirectory(a, 0), Owned(a), Owned(a));
    forall p: nat ensures Refs(v, p) == {} <==> forall x :: x in Refs(vm, p) ==> x.a == a {
      if Refs(v, p) == {} {
        forall x | x in Refs(vm, p) ensures x.a == a {
          assert x !in Refs(v, p);
        }
      }
    }
  }

  /** Hence an ASID may be handed out again: no valid private translation carries a dead one; pages 0
      and 1 of ASID 0 are the exception, if page 0 of it was ever mapped. */
  lemma DeadAsidHasNoTranslation(vm: Vm, a: nat, k: nat)
    requires Inv(vm) && a !in vm.spaces && k < |vm.tlb| && vm.tlb[k].asid == a
    requires ZeroPair(vm.tlb[k]) ==> ZeroClean(vm)
    ensures var e := vm.tlb[k];
      && (Valid(e.lo0) ==> Common(e.pdx, 2 * e.pair))
      && (Valid(e.lo1) ==> Common(e.pdx, 2 * e.pair + 1))
  {
    assert EntryOk(vm, vm.tlb[k]);
    EntryFlags(0, 0);
  }
}
