/** The two-level tables refine a map from virtual pages to words. */
module PageMap {
  import opened Basics
  import opened Mmu
  import opened PageTables
  import opened PageEffects
  import opened PageInvariants

  /** Page (i, j) of the address space with ASID `a`. */
  datatype Page = Page(a: nat, i: nat, j: nat)

  type View = map<Page, Word>

  function Mapped(vm: Vm): (s: set<Page>)
    ensures forall x: Page :: x in s <==>
      x.a in vm.spaces && MayMap(x.i, x.j) && Valid(Pte(vm, x.a, x.i, x.j))
  {
    set a: nat, i: nat, j: nat |
      a in vm.spaces && i < PDX_UTOP && j < WORDS && MayMap(i, j) && Valid(Pte(vm, a, i, j)) ::
      Page(a, i, j)
  }

  /** The abstract address spaces: what each mapped user page of each live ASID translates to. */
  function ViewOf(vm: Vm): View {
    map x | x in Mapped(vm) :: Pte(vm, x.a, x.i, x.j)
  }

  /** No allocated ordinary page is written: no mapped page, and none waiting to be mapped. */
  ghost predicate DataKept(vm: Vm, vm': Vm) {
    |vm'.phys| == |vm.phys| &&
    forall p: nat :: Mappable(vm, p) ==> vm'.phys[p] == vm.phys[p]
  }

  lemma LookupIsMapGet(vm: Vm, a: nat, i: nat, j: nat)
    requires a in vm.spaces && MayMap(i, j)
    ensures PageLookup(vm, a, i, j) ==
            if Page(a, i, j) in ViewOf(vm) then Some(ViewOf(vm)[Page(a, i, j)].ppn) else None
  {
  }

  /** Two states translate every page alike, except perhaps page `x`. */
  ghost predicate SameBut(vm: Vm, vm': Vm, x: Page) {
    vm'.spaces == vm.spaces &&
    forall b: nat, k: nat, l: nat :: k < PDX_UTOP && Page(b, k, l) != x ==>
      Pte(vm', b, k, l) == Pte(vm, b, k, l)
  }

  lemma ViewAfter(vm: Vm, vm': Vm, x: Page)
    requires SameBut(vm, vm', x) && x.a in vm.spaces && MayMap(x.i, x.j)
    ensures var w := Pte(vm', x.a, x.i, x.j);
      ViewOf(vm') == if Valid(w) then ViewOf(vm)[x := w] else ViewOf(vm) - {x}
  {
    var w := Pte(vm', x.a, x.i, x.j);
    forall y: Page | y != x ensures y in Mapped(vm') <==> y in Mapped(vm)
      ensures y in Mapped(vm) ==> ViewOf(vm')[y] == ViewOf(vm)[y]
    {
    }
  }

  /** Writing a table page, or clearing a free one, touches no user data. */
  lemma TableStoreKeepsData(vm: Vm, vm': Vm, p: nat)
    requires |vm'.phys| == |vm.phys| && forall q :: 0 <= q < |vm.phys| && q != p ==> vm'.phys[q] == vm.phys[q]
    requires !Mappable(vm, p)
    ensures DataKept(vm, vm')
  {
  }

  lemma TableIsNotData(vm: Vm, a: nat, i: nat)
    requires Separate(vm) && a in vm.spaces && i < PDX_UTOP && Valid(Pde(vm, a, i))
    ensures !Mappable(vm, Pde(vm, a, i).ppn)
  {
    assert Points(vm, PdeRef(a, i), Pde(vm, a, i).ppn);
  }

  /** page_remove deletes the key. */
  lemma RemoveIsMapRemove(vm: Vm, a: nat, i: nat, j: nat)
    requires Inv(vm) && a in vm.spaces && MayMap(i, j)
    ensures var vm' := PageRemove(vm, a, i, j);
      Inv(vm') && ViewOf(vm') == ViewOf(vm) - {Page(a, i, j)} && DataKept(vm, vm')
      && vm'.spaces == vm.spaces
  {
    var vm' := PageRemove(vm, a, i, j);
    if Valid(Pte(vm, a, i, j)) {
      RemoveEntries(vm, a, i, j);
      RemoveKeeps(vm, a, i, j);
      EntryFlags(0, 0);
      ViewAfter(vm, vm', Page(a, i, j));
      TableIsNotData(vm, a, i);
      TableStoreKeepsData(vm, vm', Pde(vm, a, i).ppn);
    } else {
      ViewAfter(vm, vm, Page(a, i, j));
    }
  }

  /** The state in which page_insert writes the entry: the old page unmapped, the pair flushed. */
  function Prepared(vm: Vm, a: nat, i: nat, j: nat): Vm {
    Invalidate(if Valid(Pte(vm, a, i, j)) then PageRemove(vm, a, i, j) else vm, a, i, j)
  }

  lemma UnmapStage(vm: Vm, a: nat, i: nat, j: nat, pp: nat)
    requires Inv(vm) && a in vm.spaces && MayMap(i, j) && Mappable(vm, pp)
    requires Valid(Pte(vm, a, i, j)) && Pte(vm, a, i, j).ppn != pp
    ensures var u := PageRemove(vm, a, i, j);
      Inv(u) && Mappable(u, pp) && u.refs[pp] == vm.refs[pp] && u.spaces == vm.spaces
      && !Valid(Pte(u, a, i, j)) && (forall b: nat, k: nat :: Pde(u, b, k) == Pde(vm, b, k))
  {
    RemoveEntries(vm, a, i, j);
    RemoveKeeps(vm, a, i, j);
    EntryFlags(0, 0);
  }

  lemma FlushStage(u: Vm, a: nat, i: nat, j: nat)
    requires Inv(u) && MayMap(i, j)
    ensures var v := Invalidate(u, a, i, j);
      Inv(v) && ViewOf(v) == ViewOf(u) && WalksAlike(u, v)
      && (forall p: nat :: Mappable(u, p) <==> Mappable(v, p))
  {
    var v := Invalidate(u, a, i, j);
    CoherentInvalidate(u, a, i, j);
    SamePoints(u, v);
    SameView(u, v);
  }

  lemma PreparedKeeps(vm: Vm, a: nat, i: nat, j: nat, pp: nat)
    requires Inv(vm) && a in vm.spaces && MayMap(i, j) && Mappable(vm, pp)
    requires Valid(Pte(vm, a, i, j)) ==> Pte(vm, a, i, j).ppn != pp
    ensures var v := Prepared(vm, a, i, j);
      && Inv(v) && Mappable(v, pp) && v.refs[pp] == vm.refs[pp] && v.spaces == vm.spaces
      && ViewOf(v) == ViewOf(vm) - {Page(a, i, j)} && !Valid(Pte(v, a, i, j)) && DataKept(vm, v)
      && (forall b: nat, k: nat :: Pde(v, b, k) == Pde(vm, b, k))
      && (!Valid(Pte(vm, a, i, j)) ==> v.phys == vm.phys && v.refs == vm.refs && v.free == vm.free)
  {
    RemoveIsMapRemove(vm, a, i, j);
    if Valid(Pte(vm, a, i, j)) {
      UnmapStage(vm, a, i, j, pp);
      FlushStage(PageRemove(vm, a, i, j), a, i, j);
    } else {
      FlushStage(vm, a, i, j);
    }
  }

  /** pgdir_walk with create leaves the view, the data and every other page as they were. */
  lemma TableReady(v: Vm, a: nat, i: nat, pp: nat)
    requires Inv(v) && a in v.spaces && i < PDX_UTOP && Mappable(v, pp)
    requires Valid(Pde(v, a, i)) || v.free != []
    ensures WalkCreate(v, a, i).Some?
    ensures var u := WalkCreate(v, a, i).value;
      Inv(u) && Valid(Pde(u, a, i)) && u.refs[pp] == v.refs[pp]
      && (forall p: nat :: Mappable(v, p) ==> Mappable(u, p))
      && u.spaces == v.spaces && u.tlb == v.tlb && ViewOf(u) == ViewOf(v) && DataKept(v, u)
      && (forall b: nat, k: nat, l: nat :: k < PDX_UTOP ==> Pte(u, b, k, l) == Pte(v, b, k, l))
  {
    if !Valid(Pde(v, a, i)) {
      var u := WalkCreate(v, a, i).value;
      var t := v.free[0];
      NewTableWalk(v, a, i);
      NewTableKeeps(v, a, i);
      EntryFlags(t, 0);
      FreshTableKeepsData(v, a, i);
      SameView(v, u);
      assert t in v.free;
      forall p: nat | Mappable(v, p) ensures Mappable(u, p) {
        assert p != t;
      }
    }
  }

  lemma SameView(v: Vm, u: Vm)
    requires u.spaces == v.spaces
    requires forall b: nat, k: nat, l: nat :: k < PDX_UTOP ==> Pte(u, b, k, l) == Pte(v, b, k, l)
    ensures ViewOf(u) == ViewOf(v)
  {
    assert Mapped(u) == Mapped(v);
  }

  lemma FreshTableKeepsData(v: Vm, a: nat, i: nat)
    requires Inv(v) && a in v.spaces && i < PDX_UTOP && !Valid(Pde(v, a, i)) && v.free != []
    requires WalkCreate(v, a, i).Some?
    ensures DataKept(v, WalkCreate(v, a, i).value)
  {
    var t := v.free[0];
    var r := v.spaces[a];
    var u := WalkCreate(v, a, i).value;
    assert t in v.free;
    UnreferencedIfZero(v, t);
    assert |u.phys| == |v.phys| && forall q :: 0 <= q < |v.phys| && q != t && q != r ==> u.phys[q] == v.phys[q];
    assert Points(v, RootRef(a), r);
  }

  /** Storing the entry and counting the reference. */
  lemma FillKeeps(u: Vm, a: nat, i: nat, j: nat, pp: nat, perm: bv12)
    requires Inv(u) && a in u.spaces && MayMap(i, j) && !Valid(Pte(u, a, i, j))
    requires Mappable(u, pp) && u.refs[pp] < 0xffff && perm & PTE_G == 0
    requires Valid(Pde(u, a, i))
    ensures var vm' := IncRef(SetPte(u, a, i, j, Entry(pp, perm)), pp);
      Inv(vm') && ViewOf(vm') == ViewOf(u)[Page(a, i, j) := Entry(pp, perm)] && DataKept(u, vm')
      && vm'.spaces == u.spaces && vm'.tlb == u.tlb && Pte(vm', a, i, j) == Entry(pp, perm)
  {
    var w := Entry(pp, perm);
    var s := SetPte(u, a, i, j, w);
    var vm' := IncRef(s, pp);
    EntryFlags(pp, perm);
    MapWalk(u, a, i, j, w);
    MapKeeps(u, a, i, j, pp, perm);
    SameWalk(s, vm');
    ViewAfter(u, vm', Page(a, i, j));
    TableIsNotData(u, a, i);
    TableStoreKeepsData(u, vm', Pde(u, a, i).ppn);
  }

  /** What page_insert demands: a user address, an allocated ordinary page, no PTE_G, and a
      reference count that its 16 bits can still hold. */
  ghost predicate CanInsert(vm: Vm, a: nat, i: nat, j: nat, pp: nat, perm: bv12) {
    && a in vm.spaces && MayMap(i, j) && Mappable(vm, pp) && perm & PTE_G == 0
    && (vm.refs[pp] < 0xffff || PageLookup(vm, a, i, j) == Some(pp))
  }

  /** page_insert, when the page is not already mapped there, in its three stages. */
  lemma InsertStages(vm: Vm, a: nat, i: nat, j: nat, pp: nat, perm: bv12)
    requires a in vm.spaces && PageLookup(vm, a, i, j) != Some(pp)
    requires Prepared(vm, a, i, j).spaces == vm.spaces
    ensures var v := Prepared(vm, a, i, j);
      PageInsert(vm, a, i, j, pp, perm) ==
      match WalkCreate(v, a, i)
      case None => (v, false)
      case Some(u) => (IncRef(SetPte(u, a, i, j, Entry(pp, perm)), pp), true)
  {
  }

  lemma InsertKeepsData(vm: Vm, a: nat, i: nat, j: nat, pp: nat, perm: bv12)
    requires Inv(vm) && CanInsert(vm, a, i, j, pp, perm)
    requires PageLookup(vm, a, i, j) != Some(pp)
    requires Valid(Pde(vm, a, i)) || vm.free != []
    ensures DataKept(vm, PageInsert(vm, a, i, j, pp, perm).0)
  {
    var v := Prepared(vm, a, i, j);
    PreparedKeeps(vm, a, i, j, pp);
    InsertStages(vm, a, i, j, pp, perm);
    var vm' := PageInsert(vm, a, i, j, pp, perm).0;
    if Valid(Pde(vm, a, i)) {
      TableIsNotData(vm, a, i);
      TableStoreKeepsData(vm, vm', Pde(vm, a, i).ppn);
    } else {
      SameWalk(vm, v);
      TableReady(v, a, i, pp);
      var u := WalkCreate(v, a, i).value;
      FillKeeps(u, a, i, j, pp, perm);
      forall p: nat | Mappable(vm, p) ensures vm'.phys[p] == vm.phys[p] {
        assert Mappable(v, p) && Mappable(u, p);
      }
    }
  }

  /** page_insert is map update.  It fails only when the table is missing and no page is free; then
      it changes nothing but the TLB. */
  lemma InsertIsMapUpdate(vm: Vm, a: nat, i: nat, j: nat, pp: nat, perm: bv12)
    requires Inv(vm) && CanInsert(vm, a, i, j, pp, perm)
    ensures var (vm', ok) := PageInsert(vm, a, i, j, pp, perm);
      && Inv(vm') && DataKept(vm, vm') && vm'.spaces == vm.spaces
      && (ok <==> Valid(Pde(vm, a, i)) || vm.free != [])
      && ViewOf(vm') == (if ok then ViewOf(vm)[Page(a, i, j) := Entry(pp, perm)] else ViewOf(vm))
      && (!ok ==> vm' == vm.(tlb := vm'.tlb))
  {
    if PageLookup(vm, a, i, j) == Some(pp) {
      RemapIsMapUpdate(vm, a, i, j, perm);
    } else {
      var v := Prepared(vm, a, i, j);
      PreparedKeeps(vm, a, i, j, pp);
      InsertStages(vm, a, i, j, pp, perm);
      var x := Page(a, i, j);
      if Valid(Pde(vm, a, i)) || vm.free != [] {
        TableReady(v, a, i, pp);
        FillKeeps(WalkCreate(v, a, i).value, a, i, j, pp, perm);
        InsertKeepsData(vm, a, i, j, pp, perm);
        ReplaceKey(ViewOf(vm), x, Entry(pp, perm));
      } else {
        assert x !in ViewOf(vm);
        assert ViewOf(vm) - {x} == ViewOf(vm);
      }
    }
  }

  lemma ReplaceKey(m: View, x: Page, w: Word)
    ensures (m - {x})[x := w] == m[x := w]
  {
  }

  lemma RemapIsMapUpdate(vm: Vm, a: nat, i: nat, j: nat, perm: bv12)
    requires Inv(vm) && a in vm.spaces && MayMap(i, j) && Valid(Pte(vm, a, i, j))
    requires perm & PTE_G == 0
    ensures var w := Entry(Pte(vm, a, i, j).ppn, perm);
      var vm' := SetPte(Invalidate(vm, a, i, j), a, i, j, w);
      Inv(vm') && DataKept(vm, vm') && vm'.spaces == vm.spaces
      && ViewOf(vm') == ViewOf(vm)[Page(a, i, j) := w]
  {
    var w := Entry(Pte(vm, a, i, j).ppn, perm);
    var u := SetPte(vm, a, i, j, w);
    var vm' := SetPte(Invalidate(vm, a, i, j), a, i, j, w);
    EntryFlags(w.ppn, perm);
    MapWalk(vm, a, i, j, w);
    RemapKeeps(vm, a, i, j, perm);
    SameWalk(u, vm');
    ViewAfter(vm, vm', Page(a, i, j));
    TableIsNotData(vm, a, i);
    TableStoreKeepsData(vm, vm', Pde(vm, a, i).ppn);
  }

  /** The 16-bit count: filling an empty entry keeps the counts exact if and only if the page had
      fewer than 65535 references. */
  lemma CountExactIff(vm: Vm, a: nat, i: nat, j: nat, pp: nat, perm: bv12)
    requires Inv(vm) && a in vm.spaces && MayMap(i, j) && Valid(Pde(vm, a, i))
    requires !Valid(Pte(vm, a, i, j)) && perm & PTE_G == 0 && Mappable(vm, pp)
    requires vm.refs[pp] <= 0xffff
    ensures PageInsert(vm, a, i, j, pp, perm).1
    ensures Exact(PageInsert(vm, a, i, j, pp, perm).0) <==> vm.refs[pp] < 0xffff
  {
    var vm' := PageInsert(vm, a, i, j, pp, perm).0;
    if vm.refs[pp] < 0xffff {
      InsertIsMapUpdate(vm, a, i, j, pp, perm);
    } else {
      PreparedKeeps(vm, a, i, j, pp);
      InsertStages(vm, a, i, j, pp, perm);
      CountWraps(Prepared(vm, a, i, j), a, i, j, pp, perm);
    }
  }

  lemma CountWraps(v: Vm, a: nat, i: nat, j: nat, pp: nat, perm: bv12)
    requires Inv(v) && a in v.spaces && MayMap(i, j) && Valid(Pde(v, a, i))
    requires !Valid(Pte(v, a, i, j)) && perm & PTE_G == 0 && Mappable(v, pp)
    requires v.refs[pp] == 0xffff
    ensures !Exact(IncRef(SetPte(v, a, i, j, Entry(pp, perm)), pp))
  {
    var w := Entry(pp, perm);
    var s := SetPte(v, a, i, j, w);
    var vm' := IncRef(s, pp);
    EntryFlags(pp, perm);
    MapWalk(v, a, i, j, w);
    SameWalk(s, vm');
    GainsCount(v, vm', PteRef(a, i, j), pp);
    CountLost(v, vm', pp);
  }

  lemma CountLost(v: Vm, vm': Vm, q: nat)
    requires Exact(v) && |vm'.phys| == |v.phys| && vm'.kernel == v.kernel
    requires q < |v.phys| && q !in v.kernel && v.refs[q] == 0xffff && vm'.refs == IncRef(v, q).refs
    requires |Refs(vm', q)| == |Refs(v, q)| + 1
    ensures !Exact(vm')
  {
    assert vm'.refs[q] == Inc(0xffff);
  }
}
