/** What the primitive stores of kern/pmap.c do to the walk, and to the references to each page. */
module PageEffects {
  import opened Mmu
  import opened PageTables

  ghost predicate Sound(vm: Vm) {
    Shape(vm) && Directories(vm) && Separate(vm)
  }

  // ----- Effects of single stores on the two-level walk -----

  /** All directories read alike, and all page tables except possibly one entry. */
  ghost predicate WalksAlike(vm: Vm, vm': Vm) {
    && (forall b: nat, k: nat :: Pde(vm', b, k) == Pde(vm, b, k))
    && (forall b: nat, k: nat, l: nat :: k < PDX_UTOP ==> Pte(vm', b, k, l) == Pte(vm, b, k, l))
  }

  lemma WindowIsDirectory(vm: Vm, a: nat, j: nat)
    requires Shape(vm) && Directories(vm) && a in vm.spaces
    ensures Pte(vm, a, PDX_UVPT, j) == Pde(vm, a, j)
  {
    assert Pde(vm, a, PDX_UVPT) == Word(vm.spaces[a], PTE_V);
  }

  /** A page that nothing but page-table entries points at can be written without changing any
      translation. */
  lemma DataStore(vm: Vm, vm': Vm, p: nat)
    requires Sound(vm) && p !in vm.kernel
    requires forall x :: Points(vm, x, p) ==> x.PteRef?
    requires vm'.spaces == vm.spaces && vm'.base == vm.base && vm'.kernel == vm.kernel
    requires |vm'.phys| == |vm.phys| && |vm'.refs| == |vm.refs|
    requires p < |vm.phys| && |vm'.phys[p]| == WORDS
    requires forall q :: 0 <= q < |vm.phys| && q != p ==> vm'.phys[q] == vm.phys[q]
    ensures Shape(vm') && WalksAlike(vm, vm')
    ensures forall k: nat :: Load(vm'.phys, vm.base, k) == Load(vm.phys, vm.base, k)
  {
    forall b: nat, k: nat ensures Pde(vm', b, k) == Pde(vm, b, k) {
      if b in vm.spaces {
        assert Points(vm, RootRef(b), vm.spaces[b]);
      }
    }
    forall b: nat, k: nat, l: nat | k < PDX_UTOP ensures Pte(vm', b, k, l) == Pte(vm, b, k, l) {
      if b in vm.spaces && Valid(Pde(vm, b, k)) {
        assert Points(vm, PdeRef(b, k), Pde(vm, b, k).ppn);
      }
    }
  }

  lemma SetPteEffect(vm: Vm, a: nat, i: nat, j: nat, w: Word)
    requires Sound(vm) && a in vm.spaces && i < PDX_UTOP && j < WORDS && Valid(Pde(vm, a, i))
    ensures var vm' := SetPte(vm, a, i, j, w);
      && Shape(vm')
      && (forall k: nat :: Load(vm'.phys, vm.base, k) == Load(vm.phys, vm.base, k))
      && (forall b: nat, k: nat :: Pde(vm', b, k) == Pde(vm, b, k))
      && Pte(vm', a, i, j) == w
      && (forall b: nat, k: nat, l: nat :: k < PDX_UTOP && !(b == a && k == i && l == j) ==>
           Pte(vm', b, k, l) == Pte(vm, b, k, l))
  {
    var vm' := SetPte(vm, a, i, j, w);
    var t := Pde(vm, a, i).ppn;
    assert Points(vm, PdeRef(a, i), t);
    forall b: nat, k: nat ensures Pde(vm', b, k) == Pde(vm, b, k) {
      if b in vm.spaces {
        assert Points(vm, RootRef(b), vm.spaces[b]);
      }
    }
    forall b: nat, k: nat, l: nat | k < PDX_UTOP && !(b == a && k == i && l == j)
      ensures Pte(vm', b, k, l) == Pte(vm, b, k, l)
    {
      if b in vm.spaces && Valid(Pde(vm, b, k)) {
        assert Points(vm, PdeRef(b, k), Pde(vm, b, k).ppn);
      }
    }
  }

  /** Storing a directory entry below UTOP: only that entry changes, and only its table's walk. */
  lemma SetPdeEffect(vm: Vm, vm': Vm, a: nat, i: nat, w: Word)
    requires Sound(vm) && a in vm.spaces && i < PDX_UTOP
    requires vm' == vm.(phys := Poke(vm.phys, vm.spaces[a], i, w))
    ensures Shape(vm')
    ensures forall k: nat :: Load(vm'.phys, vm.base, k) == Load(vm.phys, vm.base, k)
    ensures Pde(vm', a, i) == w
    ensures forall b: nat, k: nat :: !(b == a && k == i) ==> Pde(vm', b, k) == Pde(vm, b, k)
    ensures forall b: nat, k: nat, l: nat :: k < PDX_UTOP && !(b == a && k == i) ==>
              Pte(vm', b, k, l) == Pte(vm, b, k, l)
  {
    var r := vm.spaces[a];
    assert Points(vm, RootRef(a), r);
    forall b: nat, k: nat | !(b == a && k == i) ensures Pde(vm', b, k) == Pde(vm, b, k) {
      if b in vm.spaces {
        assert Points(vm, RootRef(b), vm.spaces[b]);
      }
    }
    forall b: nat, k: nat, l: nat | k < PDX_UTOP && !(b == a && k == i)
      ensures Pte(vm', b, k, l) == Pte(vm, b, k, l)
    {
      if b in vm.spaces && Valid(Pde(vm, b, k)) {
        assert Points(vm, PdeRef(b, k), Pde(vm, b, k).ppn);
      }
    }
  }

  // ----- Effects on the reference sets -----

  /** `x` is a new reference, to page `q`; no other reference changed. */
  ghost predicate Gains(vm: Vm, vm': Vm, x: Ref, q: nat) {
    && (forall p: nat :: !Points(vm, x, p))
    && (forall y, p: nat :: Points(vm', y, p) <==> Points(vm, y, p) || (y == x && p == q))
  }

  /** `x` referred to `q` and is gone; no other reference changed. */
  ghost predicate Loses(vm: Vm, vm': Vm, x: Ref, q: nat) {
    && Points(vm, x, q)
    && (forall y, p: nat :: Points(vm', y, p) <==> Points(vm, y, p) && y != x)
  }

  lemma GainsCount(vm: Vm, vm': Vm, x: Ref, q: nat)
    requires Gains(vm, vm', x, q)
    ensures forall p: nat :: Refs(vm', p) == if p == q then Refs(vm, p) + {x} else Refs(vm, p)
    ensures forall p: nat :: |Refs(vm', p)| == |Refs(vm, p)| + (if p == q then 1 else 0)
  {
    forall p: nat ensures Refs(vm', p) == if p == q then Refs(vm, p) + {x} else Refs(vm, p) {
    }
    assert x !in Refs(vm, q);
  }

  lemma LosesCount(vm: Vm, vm': Vm, x: Ref, q: nat)
    requires Loses(vm, vm', x, q)
    ensures forall p: nat :: Refs(vm', p) == if p == q then Refs(vm, p) - {x} else Refs(vm, p)
    ensures forall p: nat :: |Refs(vm', p)| == |Refs(vm, p)| - (if p == q then 1 else 0)
  {
    forall p: nat
      ensures Refs(vm', p) == if p == q then Refs(vm, p) - {x} else Refs(vm, p)
      ensures |Refs(vm', p)| == |Refs(vm, p)| - (if p == q then 1 else 0)
    {
      assert Points(vm, x, q);
      if p != q && Points(vm, x, p) {
        assert false;
      }
      assert Refs(vm', p) == if p == q then Refs(vm, p) - {x} else Refs(vm, p);
    }
  }

  /** A page on the free list, and a page just taken from it, is referenced by nothing. */
  lemma UnreferencedIfZero(vm: Vm, p: nat)
    requires Exact(vm) && p < |vm.phys| && p !in vm.kernel && vm.refs[p] == 0
    ensures Refs(vm, p) == {} && forall x :: !Points(vm, x, p)
  {
    forall x ensures !Points(vm, x, p) {
      assert x !in Refs(vm, p);
    }
  }
}
