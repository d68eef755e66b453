/** Every memory operation keeps the invariant `Inv`: exact reference counts, a sound free list,
    disjoint tables, and a TLB that agrees with the page tables. */
module PageInvariants {
  import opened Basics
  import opened Mmu
  import opened PageTables
  import opened PageEffects

  // ----- TLB -----

  lemma {:induction false} TlbOutFinds(tlb: seq<TlbEntry>, i: nat, j: nat, a: nat) returns (k: nat)
    ensures k <= |tlb|
    ensures forall m :: 0 <= m < k ==> !Hits(tlb[m], i, j / 2, a)
    ensures k < |tlb| ==> Hits(tlb[k], i, j / 2, a) && TlbOut(tlb, i, j, a) == tlb[k := EMPTY]
    ensures k == |tlb| ==> TlbOut(tlb, i, j, a) == tlb
  {
    if tlb == [] || Hits(tlb[0], i, j / 2, a) {
      k := 0;
    } else {
      var m := TlbOutFinds(tlb[1..], i, j, a);
      k := m + 1;
    }
  }

  /** After tlb_out nothing answers for the probed pair, and the rest is as it was. */
  lemma TlbOutClears(vm: Vm, i: nat, j: nat, a: nat)
    requires Coherent(vm)
    ensures var r := TlbOut(vm.tlb, i, j, a);
      && OneHit(r)
      && (forall k :: 0 <= k < |r| ==> r[k] == EMPTY || r[k] == vm.tlb[k])
      && (forall k :: 0 <= k < |r| && !ZeroPair(r[k]) ==>
            !(r[k].pdx == i && r[k].pair == j / 2 && r[k].asid == a))
  {
    var k := TlbOutFinds(vm.tlb, i, j, a);
    forall m | 0 <= m < |vm.tlb| ensures Hits(vm.tlb[m], i, j / 2, a) <==>
      vm.tlb[m].pdx == i && vm.tlb[m].pair == j / 2 && vm.tlb[m].asid == a
    {
      assert EntryOk(vm, vm.tlb[m]);
      EntryFlags(0, 0);
    }
  }

  /** Every translation that was valid, except those of one invalidated pair, is unchanged. */
  ghost predicate KeepsTranslations(vm: Vm, vm': Vm, a: nat, i: nat, j: nat) {
    && (forall k: nat :: Load(vm'.phys, vm'.base, k) == Load(vm.phys, vm.base, k))
    && (forall b: nat, k: nat, l: nat ::
         b in vm.spaces && (k < PDX_UTOP || k == PDX_UVPT) && !Common(k, l) &&
         Valid(Pte(vm, b, k, l)) && !(b == a && k == i && l / 2 == j / 2) ==>
           b in vm'.spaces && Pte(vm', b, k, l) == Pte(vm, b, k, l))
  }

  lemma CoherentAfter(vm: Vm, vm': Vm, a: nat, i: nat, j: nat)
    requires Coherent(vm) && KeepsTranslations(vm, vm', a, i, j)
    requires vm'.tlb == TlbOut(vm.tlb, i, j, a)
    ensures Coherent(vm')
  {
    TlbOutClears(vm, i, j, a);
    forall k | 0 <= k < |vm'.tlb| ensures EntryOk(vm', vm'.tlb[k]) {
      var e := vm'.tlb[k];
      if !ZeroPair(e) {
        assert EntryOk(vm, vm.tlb[k]);
        HalfStays(vm, vm', a, i, j, e.lo0, e.asid, e.pdx, 2 * e.pair);
        HalfStays(vm, vm', a, i, j, e.lo1, e.asid, e.pdx, 2 * e.pair + 1);
      }
    }
  }

  lemma HalfStays(vm: Vm, vm': Vm, a: nat, i: nat, j: nat, h: Word, b: nat, k: nat, l: nat)
    requires HalfOk(vm, h, b, k, l) && KeepsTranslations(vm, vm', a, i, j)
    requires (k < PDX_UTOP || k == PDX_UVPT) && !(k == i && l / 2 == j / 2 && b == a)
    ensures HalfOk(vm', h, b, k, l)
  {
    HwKeeps(Pte(vm, b, k, l));
  }

  /** The same when nothing is invalidated. */
  lemma CoherentStill(vm: Vm, vm': Vm)
    requires Coherent(vm) && vm'.tlb == vm.tlb
    requires forall k: nat :: Load(vm'.phys, vm'.base, k) == Load(vm.phys, vm.base, k)
    requires forall b: nat, k: nat, l: nat ::
      b in vm.spaces && (k < PDX_UTOP || k == PDX_UVPT) && !Common(k, l) && Valid(Pte(vm, b, k, l)) ==>
        b in vm'.spaces && Pte(vm', b, k, l) == Pte(vm, b, k, l)
    ensures Coherent(vm')
  {
    forall k | 0 <= k < |vm'.tlb| ensures EntryOk(vm', vm'.tlb[k]) {
      var e := vm'.tlb[k];
      if !ZeroPair(e) {
        assert EntryOk(vm, vm.tlb[k]);
        HwKeeps(Pte(vm, e.asid, e.pdx, 2 * e.pair));
        HwKeeps(Pte(vm, e.asid, e.pdx, 2 * e.pair + 1));
      }
    }
  }

  lemma CoherentInvalidate(vm: Vm, a: nat, i: nat, j: nat)
    requires Inv(vm)
    ensures Inv(Invalidate(vm, a, i, j))
    ensures WalksAlike(vm, Invalidate(vm, a, i, j))
  {
    var vm' := Invalidate(vm, a, i, j);
    forall b: nat, k: nat, l: nat ensures Pte(vm', b, k, l) == Pte(vm, b, k, l) {
    }
    CoherentAfter(vm, vm', a, i, j);
    SamePoints(vm, vm');
    SameCounts(vm, vm');
  }

  // ----- Reference counts -----

  lemma SamePoints(vm: Vm, vm': Vm)
    requires WalksAlike(vm, vm') && vm'.spaces == vm.spaces
    ensures forall x, p: nat :: Points(vm', x, p) <==> Points(vm, x, p)
  {
  }

  lemma SameCounts(vm: Vm, vm': Vm)
    requires forall x, p: nat :: Points(vm', x, p) <==> Points(vm, x, p)
    ensures forall p: nat :: Refs(vm', p) == Refs(vm, p)
  {
    forall p: nat ensures Refs(vm', p) == Refs(vm, p) {
    }
  }

  // ----- page_alloc -----

  /** The page handed out is cleared, off the free list and referenced by nothing; nothing else
      moved. */
  lemma AllocKeeps(vm: Vm)
    requires Inv(vm) && vm.free != []
    ensures var (vm', r) := PageAlloc(vm); var pp := vm.free[0];
      && r == Some(pp)
      && Inv(vm') && WalksAlike(vm, vm')
      && pp < |vm.phys| && pp !in vm.kernel && pp !in vm'.free && vm'.refs == vm.refs
      && vm.refs[pp] == 0 && Refs(vm', pp) == {} && vm'.phys[pp] == Zeros()
  {
    var vm' := PageAlloc(vm).0;
    var pp := vm.free[0];
    assert pp in vm.free;
    UnreferencedIfZero(vm, pp);
    assert forall p :: p in vm'.free ==> p in vm.free && p != pp;
    DataStore(vm, vm', pp);
    SamePoints(vm, vm');
    SameCounts(vm, vm');
    forall b: nat, k: nat, l: nat | b in vm.spaces && (k < PDX_UTOP || k == PDX_UVPT)
      ensures Pte(vm', b, k, l) == Pte(vm, b, k, l)
    {
      if k == PDX_UVPT {
        WindowIsDirectory(vm, b, l);
        WindowIsDirectory(vm', b, l);
      }
    }
    CoherentStill(vm, vm');
  }

  // ----- One reference gained or lost -----

  /** page_decref: the count stays exact, and the page is freed exactly with its last reference. */
  lemma LossKeeps(vm: Vm, vm': Vm, x: Ref, q: nat)
    requires Separate(vm) && Exact(vm) && FreeListOk(vm) && Loses(vm, vm', x, q)
    requires |vm'.phys| == |vm.phys| && vm'.kernel == vm.kernel
    requires vm'.refs == PageDecref(vm, q).refs && vm'.free == PageDecref(vm, q).free
    ensures Separate(vm') && Exact(vm') && FreeListOk(vm')
    ensures vm'.free == (if Refs(vm, q) == {x} then [q] else []) + vm.free
  {
    assert Points(vm, x, q);
    assert x in Refs(vm, q);
    if vm.refs[q] == 1 {
      assert |Refs(vm, q) - {x}| == 0;
    }
    LossExact(vm, vm', x, q);
  }

  lemma LossExact(vm: Vm, vm': Vm, x: Ref, q: nat)
    requires Exact(vm) && Loses(vm, vm', x, q) && q < |vm.phys| && q !in vm.kernel
    requires |vm'.phys| == |vm.phys| && vm'.kernel == vm.kernel && vm'.refs == PageDecref(vm, q).refs
    ensures vm.refs[q] > 0 && Exact(vm')
  {
    assert Points(vm, x, q);
    assert x in Refs(vm, q);
    LosesCount(vm, vm', x, q);
  }

  /** One more reference to an allocated page: a first one, or one more page-table entry. */
  lemma GainKeeps(vm: Vm, vm': Vm, x: Ref, q: nat)
    requires Separate(vm) && Exact(vm) && FreeListOk(vm) && Gains(vm, vm', x, q)
    requires |vm'.phys| == |vm.phys| && vm'.kernel == vm.kernel && vm'.free == vm.free
    requires q < |vm.phys| && q !in vm.kernel && q !in vm.free
    requires vm.refs[q] < 0xffff && vm'.refs == IncRef(vm, q).refs
    requires Refs(vm, q) == {} || (x.PteRef? && forall y :: Points(vm, y, q) ==> y.PteRef?)
    ensures Separate(vm') && Exact(vm') && FreeListOk(vm')
  {
    GainExact(vm, vm', x, q);
    GainSeparate(vm, vm', x, q);
  }

  lemma GainExact(vm: Vm, vm': Vm, x: Ref, q: nat)
    requires Exact(vm) && Gains(vm, vm', x, q)
    requires |vm'.phys| == |vm.phys| && vm'.kernel == vm.kernel
    requires q < |vm.phys| && vm.refs[q] < 0xffff && vm'.refs == IncRef(vm, q).refs
    ensures Exact(vm')
  {
    GainsCount(vm, vm', x, q);
    assert Inc(vm.refs[q]) == vm.refs[q] + 1;
  }

  lemma GainSeparate(vm: Vm, vm': Vm, x: Ref, q: nat)
    requires Separate(vm) && Gains(vm, vm', x, q)
    requires |vm'.phys| == |vm.phys| && vm'.kernel == vm.kernel
    requires q < |vm.phys| && q !in vm.kernel
    requires Refs(vm, q) == {} || (x.PteRef? && forall y :: Points(vm, y, q) ==> y.PteRef?)
    ensures Separate(vm')
  {
    forall y, z, p: nat | Points(vm', y, p) && Points(vm', z, p) && !y.PteRef? ensures y == z {
      if y == x && p == q {
        assert z !in Refs(vm, q);
      } else {
        assert y in Refs(vm, p);
      }
    }
  }

  /** How the walks below UTOP and the directories determine the directory invariant. */
  lemma DirectoriesAfter(vm: Vm, vm': Vm)
    requires Directories(vm) && vm'.spaces == vm.spaces && vm'.base == vm.base
    requires forall k: nat :: Load(vm'.phys, vm.base, k) == Load(vm.phys, vm.base, k)
    requires forall b: nat, k: nat :: Pde(vm', b, k) == Pde(vm, b, k)
    requires forall b: nat, k: nat, l: nat :: b in vm.spaces && k < PDX_UTOP ==>
      Pte(vm', b, k, l) == Pte(vm, b, k, l) ||
      (!Global(Pte(vm', b, k, l)) &&
       if Valid(Pte(vm', b, k, l)) then MayMap(k, l) else Pte(vm', b, k, l) == ZERO)
    ensures Directories(vm')
  {
  }

  /** Below UTOP and in the UVPT window, translations change only where entries do. */
  lemma Translations(vm: Vm, vm': Vm, a: nat, i: nat, j: nat)
    requires Shape(vm) && Shape(vm') && Directories(vm) && Directories(vm') && vm'.spaces == vm.spaces
    requires forall k: nat :: Load(vm'.phys, vm'.base, k) == Load(vm.phys, vm.base, k)
    requires forall b: nat, k: nat :: Valid(Pde(vm, b, k)) ==> Pde(vm', b, k) == Pde(vm, b, k)
    requires forall b: nat, k: nat, l: nat ::
      k < PDX_UTOP && !(b == a && k == i && l == j) ==> Pte(vm', b, k, l) == Pte(vm, b, k, l)
    ensures KeepsTranslations(vm, vm', a, i, j)
  {
    forall b: nat, k: nat, l: nat |
      b in vm.spaces && (k < PDX_UTOP || k == PDX_UVPT) && Valid(Pte(vm, b, k, l)) &&
      !(b == a && k == i && l / 2 == j / 2)
      ensures Pte(vm', b, k, l) == Pte(vm, b, k, l)
    {
      if k == PDX_UVPT {
        WindowIsDirectory(vm, b, l);
        WindowIsDirectory(vm', b, l);
      }
    }
  }

  // ----- page_remove -----

  lemma RemoveEntries(vm: Vm, a: nat, i: nat, j: nat)
    requires Sound(vm) && a in vm.spaces && i < PDX_UTOP && j < WORDS && Valid(Pte(vm, a, i, j))
    ensures var vm' := PageRemove(vm, a, i, j);
      && Shape(vm') && vm'.spaces == vm.spaces && vm'.base == vm.base && vm'.kernel == vm.kernel
      && |vm'.phys| == |vm.phys|
      && (forall k: nat :: Load(vm'.phys, vm.base, k) == Load(vm.phys, vm.base, k))
      && (forall b: nat, k: nat :: Pde(vm', b, k) == Pde(vm, b, k))
      && (forall b: nat, k: nat, l: nat :: k < PDX_UTOP ==>
           Pte(vm', b, k, l) == if b == a && k == i && l == j then ZERO else Pte(vm, b, k, l))
  {
    var vm' := PageRemove(vm, a, i, j);
    var u := SetPte(vm, a, i, j, ZERO);
    SetPteEffect(vm, a, i, j, ZERO);
    assert vm'.phys == u.phys;
    SameWalk(u, vm');
  }

  lemma RemoveWalk(vm: Vm, a: nat, i: nat, j: nat)
    requires Sound(vm) && a in vm.spaces && i < PDX_UTOP && j < WORDS && Valid(Pte(vm, a, i, j))
    ensures Directories(PageRemove(vm, a, i, j))
    ensures Loses(vm, PageRemove(vm, a, i, j), PteRef(a, i, j), Pte(vm, a, i, j).ppn)
  {
    RemoveEntries(vm, a, i, j);
    EntryFlags(0, 0);
    assert Points(vm, PteRef(a, i, j), Pte(vm, a, i, j).ppn);
    DirectoriesAfter(vm, PageRemove(vm, a, i, j));
  }

  /** Unmapping one page: that entry goes, its page loses one reference and joins the free list
      exactly when it was the last. */
  lemma RemoveKeeps(vm: Vm, a: nat, i: nat, j: nat)
    requires Inv(vm) && a in vm.spaces && i < PDX_UTOP && j < WORDS && Valid(Pte(vm, a, i, j))
    ensures var vm' := PageRemove(vm, a, i, j); var pp := Pte(vm, a, i, j).ppn;
      && Inv(vm') && Loses(vm, vm', PteRef(a, i, j), pp)
      && vm'.free == (if Refs(vm, pp) == {PteRef(a, i, j)} then [pp] else []) + vm.free
  {
    var vm' := PageRemove(vm, a, i, j);
    RemoveEntries(vm, a, i, j);
    RemoveWalk(vm, a, i, j);
    LossKeeps(vm, vm', PteRef(a, i, j), Pte(vm, a, i, j).ppn);
    Translations(vm, vm', a, i, j);
    CoherentAfter(vm, vm', a, i, j);
  }

  // ----- pgdir_walk with create -----

  lemma NewTableWalk(vm: Vm, a: nat, i: nat)
    requires Inv(vm) && a in vm.spaces && i < PDX_UTOP && !Valid(Pde(vm, a, i)) && vm.free != []
    ensures var vm' := WalkCreate(vm, a, i).value; var pp := vm.free[0];
      && WalkCreate(vm, a, i).Some? && Shape(vm') && vm'.spaces == vm.spaces && vm'.tlb == vm.tlb
      && vm'.base == vm.base && vm'.kernel == vm.kernel && |vm'.phys| == |vm.phys|
      && vm'.free == vm.free[1..] && vm'.refs == IncRef(vm, pp).refs
      && (forall k: nat :: Load(vm'.phys, vm.base, k) == Load(vm.phys, vm.base, k))
      && (forall b: nat, k: nat :: Pde(vm', b, k) ==
           if b == a && k == i then Entry(pp, 0) else Pde(vm, b, k))
      && (forall b: nat, k: nat, l: nat :: k < PDX_UTOP ==> Pte(vm', b, k, l) == Pte(vm, b, k, l))
  {
    var pp := vm.free[0];
    var v := PageAlloc(vm).0;
    AllocKeeps(vm);
    var u := IncRef(v, pp);
    SameWalk(v, u);
    var vm' := WalkCreate(vm, a, i).value;
    SetPdeEffect(u, vm', a, i, Entry(pp, 0));
    EntryFlags(pp, 0);
    assert Points(v, RootRef(a), vm.spaces[a]);
    assert RootRef(a) in Refs(v, vm.spaces[a]);
    assert vm'.phys[pp] == Zeros();
    forall b: nat, k: nat, l: nat | k < PDX_UTOP ensures Pte(vm', b, k, l) == Pte(vm, b, k, l) {
      assert Pte(v, b, k, l) == Pte(vm, b, k, l);
    }
  }

  /** A fresh page table is invisible to every translation below UTOP: it is cleared. */
  lemma NewTableKeeps(vm: Vm, a: nat, i: nat)
    requires Inv(vm) && a in vm.spaces && i < PDX_UTOP && !Valid(Pde(vm, a, i)) && vm.free != []
    ensures WalkCreate(vm, a, i).Some? && Inv(WalkCreate(vm, a, i).value)
    ensures Gains(vm, WalkCreate(vm, a, i).value, PdeRef(a, i), vm.free[0])
  {
    var pp := vm.free[0];
    var v := PageAlloc(vm).0;
    var vm' := WalkCreate(vm, a, i).value;
    NewTableWalk(vm, a, i);
    EntryFlags(pp, 0);
    AllocKeeps(vm);
    SamePoints(vm, v);
    GainKeeps(v, vm', PdeRef(a, i), pp);
    assert Directories(vm');
    Translations(vm, vm', a, i, WORDS);
    CoherentStill(vm, vm');
  }

  lemma SameWalk(vm: Vm, vm': Vm)
    requires vm'.phys == vm.phys && vm'.spaces == vm.spaces
    ensures WalksAlike(vm, vm')
    ensures forall x, p: nat :: Points(vm', x, p) <==> Points(vm, x, p)
  {
    forall b: nat, k: nat, l: nat ensures Pte(vm', b, k, l) == Pte(vm, b, k, l) {
    }
    SamePoints(vm, vm');
  }

  // ----- page_insert -----

  /** A page that may be mapped: allocated, in range, not a kernel page, table or directory. */
  ghost predicate Mappable(vm: Vm, pp: nat) {
    && pp < |vm.phys| && pp < |vm.refs| && pp !in vm.kernel && pp !in vm.free
    && (forall x :: Points(vm, x, pp) ==> x.PteRef?)
  }

  lemma MapWalk(vm: Vm, a: nat, i: nat, j: nat, w: Word)
    requires Sound(vm) && a in vm.spaces && MayMap(i, j) && Valid(Pde(vm, a, i))
    requires Valid(w) && !Global(w)
    ensures var vm' := SetPte(vm, a, i, j, w);
      && Shape(vm') && Directories(vm')
      && (forall k: nat :: Load(vm'.phys, vm.base, k) == Load(vm.phys, vm.base, k))
      && (forall b: nat, k: nat :: Pde(vm', b, k) == Pde(vm, b, k))
      && (forall b: nat, k: nat, l: nat :: k < PDX_UTOP ==>
           Pte(vm', b, k, l) == if b == a && k == i && l == j then w else Pte(vm, b, k, l))
      && (!Valid(Pte(vm, a, i, j)) ==> Gains(vm, vm', PteRef(a, i, j), w.ppn))
      && (Valid(Pte(vm, a, i, j)) && Pte(vm, a, i, j).ppn == w.ppn ==>
           forall x, p: nat :: Points(vm', x, p) <==> Points(vm, x, p))
  {
    SetPteEffect(vm, a, i, j, w);
    DirectoriesAfter(vm, SetPte(vm, a, i, j, w));
  }

  /** Filling an empty entry of an existing table. */
  lemma MapKeeps(vm: Vm, a: nat, i: nat, j: nat, pp: nat, perm: bv12)
    requires Inv(vm) && a in vm.spaces && MayMap(i, j) && Valid(Pde(vm, a, i))
    requires !Valid(Pte(vm, a, i, j)) && perm & PTE_G == 0
    requires Mappable(vm, pp) && vm.refs[pp] < 0xffff
    ensures var vm' := IncRef(SetPte(vm, a, i, j, Entry(pp, perm)), pp);
      && Inv(vm') && Gains(vm, vm', PteRef(a, i, j), pp)
  {
    var w := Entry(pp, perm);
    var u := SetPte(vm, a, i, j, w);
    var vm' := IncRef(u, pp);
    EntryFlags(pp, perm);
    MapWalk(vm, a, i, j, w);
    SameWalk(u, vm');
    GainKeeps(vm, vm', PteRef(a, i, j), pp);
    DirectoriesAfter(u, vm');
    Translations(vm, vm', a, i, j);
    CoherentStill(vm, vm');
  }

  /** Changing only the permissions of a mapped page. */
  lemma RemapKeeps(vm: Vm, a: nat, i: nat, j: nat, perm: bv12)
    requires Inv(vm) && a in vm.spaces && MayMap(i, j) && Valid(Pte(vm, a, i, j))
    requires perm & PTE_G == 0
    ensures var vm' := SetPte(Invalidate(vm, a, i, j), a, i, j, Entry(Pte(vm, a, i, j).ppn, perm));
      && Inv(vm') && (forall x, p: nat :: Points(vm', x, p) <==> Points(vm, x, p))
  {
    var w := Entry(Pte(vm, a, i, j).ppn, perm);
    var u := SetPte(vm, a, i, j, w);
    var vm' := SetPte(Invalidate(vm, a, i, j), a, i, j, w);
    EntryFlags(w.ppn, perm);
    MapWalk(vm, a, i, j, w);
    assert vm' == u.(tlb := vm'.tlb);
    SameWalk(u, vm');
    SameCounts(vm, vm');
    DirectoriesAfter(u, vm');
    Translations(vm, vm', a, i, j);
    CoherentAfter(vm, vm', a, i, j);
  }
}
