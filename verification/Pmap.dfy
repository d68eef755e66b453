/** kern/pmap.c, kern/tlbex.c and the address-space half of kern/env.c as they run: one physical
    memory, one array of counts, one free list and one TLB, updated in place.

    Every method leaves exactly the state its specification function in PageTables computes, so the
    theorems about those functions are theorems about this code. */
module Pmap {
  import opened Basics
  import opened Mmu
  import opened PageTables
  import opened PageEffects
  import opened PageInvariants
  import opened PageMap
  import opened Spaces
  import opened VmRuns
  import opened MemCalls

  /** The page numbers below `n`. */
  function Below(n: nat): (s: set<nat>)
    ensures forall p: nat :: p in s <==> p < n
  {
    if n == 0 then {} else Below(n - 1) + {n - 1}
  }

  /** The template directory has its two windows, which env_init maps. */
  ghost predicate WindowsReady(phys: seq<Frame>, base: nat) {
    forall i: nat :: i == PDX_UTOP || i == PDX_UTOP + 1 ==>
      Valid(Load(phys, base, i)) && !Global(Load(phys, base, i))
  }

  /** Whatever the memory holds apart from these. */
  lemma InitialInv(vm: Vm)
    requires vm.spaces == map[] && vm.base in vm.kernel && vm.base < |vm.phys| == |vm.refs|
    requires forall p :: 0 <= p < |vm.phys| ==> |vm.phys[p]| == WORDS
    requires WindowsReady(vm.phys, vm.base)
    requires forall p :: 0 <= p < |vm.refs| && p !in vm.kernel ==> vm.refs[p] == 0
    requires NoDup(vm.free) && forall p :: p in vm.free ==> p < |vm.phys| && p !in vm.kernel
    requires forall k :: 0 <= k < |vm.tlb| ==> vm.tlb[k] == EMPTY
    ensures Inv(vm)
  {
    EntryFlags(0, 0);
    forall p: nat ensures Refs(vm, p) == {} {
    }
  }

  lemma RootInRange(vm: Vm, a: nat)
    requires Sound(vm) && a in vm.spaces
    ensures vm.spaces[a] < |vm.phys| && |vm.phys[vm.spaces[a]]| == WORDS
  {
    assert Points(vm, RootRef(a), vm.spaces[a]);
  }

  lemma TableInRange(vm: Vm, a: nat, i: nat)
    requires Sound(vm) && a in vm.spaces && HasTable(i) && Valid(Pde(vm, a, i))
    ensures Pde(vm, a, i).ppn < |vm.phys| && |vm.phys[Pde(vm, a, i).ppn]| == WORDS
  {
    if i == PDX_UVPT {
      RootInRange(vm, a);
      assert Pde(vm, a, i) == Word(vm.spaces[a], PTE_V);
    } else {
      assert Points(vm, PdeRef(a, i), Pde(vm, a, i).ppn);
    }
  }

  class Memory {
    const phys: array<Frame>
    const refs: array<nat>
    var free: seq<nat>          // page_free_list, head first (see module Queues)
    const tlb: array<TlbEntry>
    ghost var spaces: map<nat, nat>
    ghost const kernel: set<nat>
    const base: nat             // the page of base_pgdir

    ghost function Snapshot(): Vm
      reads this, phys, refs, tlb
    {
      Vm(phys[..], refs[..], free, tlb[..], spaces, kernel, base)
    }

    ghost predicate Ok()
      reads this, phys, refs, tlb
    {
      Inv(Snapshot())
    }

    /** mips_vm_init and page_init on a memory of which the first `used` pages are taken, the template
        directory among them, and a TLB of `slots` entries: counts 1 below and 0 above, the rest on the
        free list, highest first.  No page is cleared. */
    constructor (memory: seq<Frame>, used: nat, slots: nat, base0: nat)
      requires base0 < used <= |memory| && WindowsReady(memory, base0)
      requires forall p :: 0 <= p < |memory| ==> |memory[p]| == WORDS
      ensures Ok() && spaces == map[] && kernel == Below(used) && base == base0
      ensures phys[..] == memory && |free| == |memory| - used
      ensures forall k :: 0 <= k < |free| ==> free[k] == |memory| - 1 - k
      ensures fresh(phys) && fresh(refs) && fresh(tlb)
    {
      var npage := |memory|;
      var ph := new Frame[npage](k requires 0 <= k < npage => memory[k]);
      var rs := new nat[npage](_ => 0);
      var fl: seq<nat> := [];
      for i := 0 to used
        invariant forall k :: 0 <= k < i ==> rs[k] == 1
        invariant forall k :: i <= k < npage ==> rs[k] == 0
        invariant forall k :: 0 <= k < npage ==> ph[k] == memory[k]
      {
        rs[i] := 1;
      }
      for i := used to npage
        invariant |fl| == i - used
        invariant forall k :: 0 <= k < |fl| ==> fl[k] == i - 1 - k
        invariant forall k :: used <= k < npage ==> rs[k] == 0
        invariant forall k :: 0 <= k < npage ==> ph[k] == memory[k]
      {
        rs[i] := 0;
        fl := [i] + fl;
      }
      phys := ph;
      refs := rs;
      free := fl;
      tlb := new TlbEntry[slots](_ => EMPTY);
      spaces := map[];
      kernel := Below(used);
      base := base0;
      new;
      assert phys[..] == memory;
      InitialInv(Snapshot());
    }

    method PageAlloc() returns (r: Option<nat>)
      requires Ok()
      modifies this`free, phys
      ensures (Snapshot(), r) == PageTables.PageAlloc(old(Snapshot()))
      ensures Ok()
    {
      ghost var vm := Snapshot();
      if free == [] {
        return None;
      }
      AllocKeeps(vm);
      var pp := free[0];
      free := free[1..];
      phys[pp] := Zeros();
      assert phys[..] == vm.phys[pp := Zeros()];
      r := Some(pp);
    }

    method PageDecref(pp: nat)
      requires pp < refs.Length && refs[pp] > 0
      modifies this`free, refs
      ensures Snapshot() == PageTables.PageDecref(old(Snapshot()), pp)
    {
      refs[pp] := refs[pp] - 1;
      if refs[pp] == 0 {
        free := [pp] + free;
      }
    }

    /** pgdir_walk: the page of the table for directory index `i`, None for a missing one. */
    method PgdirWalk(pgdir: nat, i: nat, create: bool, ghost a: nat) returns (ok: bool, t: Option<nat>)
      requires Ok() && a in spaces && spaces[a] == pgdir && HasTable(i)
      modifies this`free, phys, refs
      ensures create ==> (ok <==> WalkCreate(old(Snapshot()), a, i).Some?)
      ensures Snapshot() == if create && ok then WalkCreate(old(Snapshot()), a, i).value else old(Snapshot())
      ensures !create ==> ok
      ensures var d := Pde(Snapshot(), a, i); t == if Valid(d) then Some(d.ppn) else None
      ensures create && ok ==> t.Some?
      ensures Ok()
    {
      ghost var vm := Snapshot();
      RootInRange(vm, a);
      if !Valid(phys[pgdir][i]) {
        if !create {
          return true, None;
        }
        var pp := PageAlloc();
        if pp == None {
          return false, None;
        }
        assert Pde(vm, a, PDX_UVPT) == Word(pgdir, PTE_V);
        AllocKeeps(vm);
        NewTableWalk(vm, a, i);
        NewTableKeeps(vm, a, i);
        refs[pp.value] := Inc(refs[pp.value]);
        phys[pgdir] := phys[pgdir][i := Entry(pp.value, 0)];
        EntryFlags(pp.value, 0);
        assert phys[..] == WalkCreate(vm, a, i).value.phys;
        assert Snapshot() == WalkCreate(vm, a, i).value;
      }
      ok, t := true, Some(phys[pgdir][i].ppn);
    }

    /** The page mapped at (i, j), with the page of the table that holds its entry. */
    method PageLookup(pgdir: nat, i: nat, j: nat, ghost a: nat) returns (r: Option<nat>, t: nat)
      requires Ok() && a in spaces && spaces[a] == pgdir && HasTable(i) && j < WORDS
      modifies this`free, phys, refs
      ensures Snapshot() == old(Snapshot())
      ensures r == PageTables.PageLookup(Snapshot(), a, i, j)
      ensures r.Some? ==> t == Pde(Snapshot(), a, i).ppn
    {
      var ok, q := PgdirWalk(pgdir, i, false, a);
      if q == None {
        return None, 0;
      }
      TableInRange(Snapshot(), a, i);
      t := q.value;
      if !Valid(phys[t][j]) {
        return None, t;
      }
      r := Some(phys[t][j].ppn);
    }

    /** tlb_out: probe, and overwrite the slot found. */
    method TlbInvalidate(asid: nat, i: nat, j: nat)
      modifies tlb
      ensures Snapshot() == Invalidate(old(Snapshot()), asid, i, j)
    {
      ghost var was := tlb[..];
      ghost var k := TlbOutFinds(was, i, j, asid);
      var n := 0;
      while n < tlb.Length && !Hits(tlb[n], i, j / 2, asid)
        invariant n <= k && tlb[..] == was
      {
        n := n + 1;
      }
      if n < tlb.Length {
        tlb[n] := EMPTY;
      }
      assert tlb[..] == TlbOut(was, i, j, asid);
    }

    method PageRemove(pgdir: nat, asid: nat, i: nat, j: nat)
      requires Ok() && asid in spaces && spaces[asid] == pgdir && MayMap(i, j)
      modifies this`free, phys, refs, tlb
      ensures Snapshot() == PageTables.PageRemove(old(Snapshot()), asid, i, j)
      ensures Ok()
    {
      ghost var vm := Snapshot();
      RemoveIsMapRemove(vm, asid, i, j);
      var r, t := PageLookup(pgdir, i, j, asid);
      if r == None {
        return;
      }
      TableInRange(vm, asid, i);
      assert Points(vm, PteRef(asid, i, j), r.value);
      assert PteRef(asid, i, j) in Refs(vm, r.value);
      PageDecref(r.value);
      phys[t] := phys[t][j := ZERO];
      assert phys[..] == SetPte(vm, asid, i, j, ZERO).phys;
      TlbInvalidate(asid, i, j);
    }

    method PageInsert(pgdir: nat, asid: nat, pp: nat, i: nat, j: nat, perm: bv12) returns (ok: bool)
      requires Ok() && CanInsert(Snapshot(), asid, i, j, pp, perm) && spaces[asid] == pgdir
      modifies this`free, phys, refs, tlb
      ensures (Snapshot(), ok) == PageTables.PageInsert(old(Snapshot()), asid, i, j, pp, perm)
      ensures Ok() && (ok ==> Maps(old(Snapshot()), Snapshot(), Page(asid, i, j), pp, perm))
    {
      ghost var vm := Snapshot();
      InsertIsMapUpdate(vm, asid, i, j, pp, perm);
      InsertGains(vm, asid, i, j, pp, perm);
      var r, t := PageLookup(pgdir, i, j, asid);
      if r != None {
        TableInRange(vm, asid, i);
        if r.value != pp {
          PageRemove(pgdir, asid, i, j);
        } else {
          Remap(asid, pp, i, j, perm, t);
          return true;
        }
      }
      TlbInvalidate(asid, i, j);
      PreparedKeeps(vm, asid, i, j, pp);
      InsertStages(vm, asid, i, j, pp, perm);
      ok := FillEntry(pgdir, asid, pp, i, j, perm);
    }

    /** Step 1 of page_insert, where page `pp` is mapped there already. */
    method Remap(asid: nat, pp: nat, i: nat, j: nat, perm: bv12, t: nat)
      requires Ok() && asid in spaces && MayMap(i, j) && Valid(Pte(Snapshot(), asid, i, j))
      requires t == Pde(Snapshot(), asid, i).ppn
      modifies phys, tlb
      ensures Snapshot() == SetPte(Invalidate(old(Snapshot()), asid, i, j), asid, i, j, Entry(pp, perm))
    {
      ghost var vm := Snapshot();
      TableInRange(vm, asid, i);
      TlbInvalidate(asid, i, j);
      phys[t] := phys[t][j := Entry(pp, perm)];
      assert phys[..] == SetPte(vm, asid, i, j, Entry(pp, perm)).phys;
    }

    /** Steps 3 and 4 of page_insert: get or create the table, store the entry, count it. */
    method FillEntry(pgdir: nat, asid: nat, pp: nat, i: nat, j: nat, perm: bv12) returns (ok: bool)
      requires Ok() && asid in spaces && spaces[asid] == pgdir && MayMap(i, j)
      requires !Valid(Pte(Snapshot(), asid, i, j)) && perm & PTE_G == 0
      requires Mappable(Snapshot(), pp) && refs[pp] < 0xffff
      modifies this`free, phys, refs
      ensures ok <==> WalkCreate(old(Snapshot()), asid, i).Some?
      ensures ok ==> (Snapshot() ==
        IncRef(SetPte(WalkCreate(old(Snapshot()), asid, i).value, asid, i, j, Entry(pp, perm)), pp))
      ensures !ok ==> Snapshot() == old(Snapshot())
    {
      ghost var v := Snapshot();
      var q;
      ok, q := PgdirWalk(pgdir, i, true, asid);
      if !ok {
        return;
      }
      ghost var u := Snapshot();
      TableInRange(u, asid, i);
      phys[q.value] := phys[q.value][j := Entry(pp, perm)];
      assert phys[..] == SetPte(u, asid, i, j, Entry(pp, perm)).phys;
      refs[pp] := Inc(refs[pp]);
      assert refs[..] == IncRef(u, pp).refs;
    }

    /** env_setup_vm for the environment that gets `asid`; None is -E_NO_MEM. */
    method EnvSetupVm(asid: nat) returns (pgdir: Option<nat>)
      requires Ok() && asid !in spaces && asid < NASID
      modifies this`free, this`spaces, phys, refs
      ensures pgdir.Some? <==> SetupVm(old(Snapshot()), asid).Some?
      ensures pgdir.Some? ==> Snapshot() == SetupVm(old(Snapshot()), asid).value
      ensures pgdir.Some? ==> asid in spaces && spaces[asid] == pgdir.value
      ensures pgdir.None? ==> Snapshot() == old(Snapshot())
      ensures Ok()
    {
      ghost var vm := Snapshot();
      pgdir := PageAlloc();
      if pgdir == None {
        return;
      }
      AllocKeeps(vm);
      SetupKeeps(vm, asid);
      var p := pgdir.value;
      refs[p] := Inc(refs[p]);
      ghost var u := Snapshot();
      assert phys[p] == Zeros();
      phys[p] := phys[p][PDX_UTOP := phys[base][PDX_UTOP]][PDX_UTOP + 1 := phys[base][PDX_UTOP + 1]];
      phys[p] := phys[p][PDX_UVPT := Word(p, PTE_V)];
      spaces := spaces[asid := p];
      assert phys[..] == SetupVm(vm, asid).value.phys;
    }

    /** env_free: the tables, then the directory page and the ASID. */
    method EnvFree(pgdir: nat, asid: nat)
      requires Ok() && asid in spaces && spaces[asid] == pgdir
      modifies this, phys, refs, tlb
      ensures Snapshot() == PageTables.EnvFree(old(Snapshot()), asid)
      ensures Ok()
    {
      EnvFreeReleases(Snapshot(), asid);
      FreeAllTables(pgdir, asid);
      ghost var u := Snapshot();
      RootInRange(u, asid);
      assert Points(u, RootRef(asid), pgdir);
      assert RootRef(asid) in Refs(u, pgdir);
      PageDecref(pgdir);
      TlbInvalidate(asid, PDX_UVPT, PDX_UVPT);
      spaces := spaces - {asid};
    }

    /** The outer loop of env_free. */
    method FreeAllTables(pgdir: nat, asid: nat)
      requires Ok() && asid in spaces && spaces[asid] == pgdir
      modifies this`free, phys, refs, tlb
      ensures Snapshot() == FreeTables(old(Snapshot()), asid, 0)
      ensures Ok()
    {
      ghost var vm := Snapshot();
      for pdeno := 0 to PDX_UTOP
        invariant Ok() && spaces == vm.spaces
        invariant FreeTables(Snapshot(), asid, pdeno) == FreeTables(vm, asid, 0)
      {
        FreeOneTable(pgdir, asid, pdeno);
      }
    }

    /** One round of the outer loop. */
    method FreeOneTable(pgdir: nat, asid: nat, pdeno: nat)
      requires Ok() && asid in spaces && spaces[asid] == pgdir && pdeno < PDX_UTOP
      modifies this`free, phys, refs, tlb
      ensures Snapshot() == FreeTable(old(Snapshot()), asid, pdeno)
      ensures Ok()
    {
      RootInRange(Snapshot(), asid);
      FreeTableReleases(Snapshot(), asid, pdeno);
      if Valid(phys[pgdir][pdeno]) {
        var pa := phys[pgdir][pdeno].ppn;
        FreePtesReleases(Snapshot(), asid, pdeno, 0);
        FreeEntries(pgdir, asid, pdeno, pa);
        FreeTablePage(pgdir, asid, pdeno, pa);
      }
    }

    /** The inner loop. */
    method FreeEntries(pgdir: nat, asid: nat, pdeno: nat, pa: nat)
      requires Ok() && asid in spaces && spaces[asid] == pgdir && pdeno < PDX_UTOP
      requires Valid(Pde(Snapshot(), asid, pdeno)) && Pde(Snapshot(), asid, pdeno).ppn == pa
      modifies this`free, phys, refs, tlb
      ensures Snapshot() == FreePtes(old(Snapshot()), asid, pdeno, 0)
      ensures Ok()
    {
      ghost var vm := Snapshot();
      for pteno := 0 to WORDS
        invariant Ok() && spaces == vm.spaces && Pde(Snapshot(), asid, pdeno) == Pde(vm, asid, pdeno)
        invariant FreePtes(Snapshot(), asid, pdeno, pteno) == FreePtes(vm, asid, pdeno, 0)
      {
        FreeOneEntry(pgdir, asid, pdeno, pteno, pa);
      }
    }

    /** One round of the inner loop. */
    method FreeOneEntry(pgdir: nat, asid: nat, pdeno: nat, pteno: nat, pa: nat)
      requires Ok() && asid in spaces && spaces[asid] == pgdir && pdeno < PDX_UTOP && pteno < WORDS
      requires Valid(Pde(Snapshot(), asid, pdeno)) && Pde(Snapshot(), asid, pdeno).ppn == pa
      modifies this`free, phys, refs, tlb
      ensures Snapshot() == if Valid(Pte(old(Snapshot()), asid, pdeno, pteno))
                            then PageTables.PageRemove(old(Snapshot()), asid, pdeno, pteno) else old(Snapshot())
      ensures Ok() && Pde(Snapshot(), asid, pdeno) == old(Pde(Snapshot(), asid, pdeno))
    {
      TableInRange(Snapshot(), asid, pdeno);
      if Valid(phys[pa][pteno]) {
        RemoveEntries(Snapshot(), asid, pdeno, pteno);
        PageRemove(pgdir, asid, pdeno, pteno);
      }
    }

    method FreeTablePage(pgdir: nat, asid: nat, pdeno: nat, pa: nat)
      requires Ok() && asid in spaces && spaces[asid] == pgdir && pdeno < PDX_UTOP
      requires Valid(Pde(Snapshot(), asid, pdeno)) && Pde(Snapshot(), asid, pdeno).ppn == pa
      modifies this`free, phys, refs, tlb
      ensures Snapshot() == DropTable(old(Snapshot()), asid, pdeno)
    {
      ghost var w := Snapshot();
      RootInRange(w, asid);
      TableInRange(w, asid, pdeno);
      assert Points(w, PdeRef(asid, pdeno), pa);
      assert PdeRef(asid, pdeno) in Refs(w, pa);
      phys[pgdir] := phys[pgdir][pdeno := ZERO];
      assert phys[..] == Poke(w.phys, pgdir, pdeno, ZERO);
      PageDecref(pa);
      TlbInvalidate(asid, PDX_UVPT, pdeno);
    }

    /** page_insert of an unused page at an unmapped page of the UVPT window. */
    method InsertWindow(pgdir: nat, asid: nat, pp: nat, j: nat)
      requires Ok() && asid in spaces && spaces[asid] == pgdir && j < WORDS && pp < refs.Length
      requires !Valid(Pte(Snapshot(), asid, PDX_UVPT, j))
      modifies phys, refs, tlb
      ensures Snapshot() == PageTables.PageInsert(old(Snapshot()), asid, PDX_UVPT, j, pp, 0).0
      ensures PageTables.PageInsert(old(Snapshot()), asid, PDX_UVPT, j, pp, 0).1
    {
      ghost var vm := Snapshot();
      RootInRange(vm, asid);
      assert Pde(vm, asid, PDX_UVPT) == Word(pgdir, PTE_V);
      EntryFlags(pp, 0);
      TlbInvalidate(asid, PDX_UVPT, j);
      phys[pgdir] := phys[pgdir][j := Entry(pp, 0)];
      refs[pp] := Inc(refs[pp]);
      assert phys[..] == Poke(vm.phys, pgdir, j, Entry(pp, 0));
      assert refs[..] == vm.refs[pp := Inc(vm.refs[pp])];
    }

    /** passive_alloc; false is a kernel panic. */
    method PassiveAlloc(pgdir: nat, asid: nat, i: nat, j: nat) returns (ok: bool)
      requires Ok() && asid in spaces && spaces[asid] == pgdir && !Valid(Pte(Snapshot(), asid, i, j))
      requires Refillable(Snapshot(), asid, i, j)
      modifies this`free, phys, refs, tlb
      ensures ok <==> PageTables.PassiveAlloc(old(Snapshot()), asid, i, j).Some?
      ensures ok ==> Snapshot() == PageTables.PassiveAlloc(old(Snapshot()), asid, i, j).value
      ensures ok ==> Ok() && Valid(Pte(Snapshot(), asid, i, j))
    {
      ghost var vm := Snapshot();
      PassiveAllocKeeps(vm, asid, i, j);
      if !Backable(i, j) {
        return false;
      }
      var p := PageAlloc();
      if p == None {
        return false;
      }
      AllocKeeps(vm);
      if i == PDX_UVPT {
        WindowIsDirectory(vm, asid, j);
        WindowIsDirectory(Snapshot(), asid, j);
        InsertWindow(pgdir, asid, p.value, j);
        return true;
      }
      AllocFresh(vm, asid, i, j, PTE_D);
      UnreferencedIfZero(Snapshot(), p.value);
      ok := PageInsert(pgdir, asid, p.value, i, j, PTE_D);
    }

    /** _do_tlb_refill: look up, allocating until the lookup succeeds, then write the pair. */
    method DoTlbRefill(pgdir: nat, asid: nat, i: nat, j: nat, slot: nat) returns (ok: bool)
      requires Ok() && asid in spaces && spaces[asid] == pgdir && slot < tlb.Length && j < WORDS
      requires Refillable(Snapshot(), asid, i, j)
      modifies this`free, phys, refs, tlb
      ensures ok <==> Refill(old(Snapshot()), asid, i, j, slot).Some?
      ensures ok ==> Snapshot() == Refill(old(Snapshot()), asid, i, j, slot).value && Ok()
    {
      ghost var vm := Snapshot();
      CoherentInvalidate(vm, asid, i, j);
      RefillKeeps(vm, asid, i, j, slot);
      TlbInvalidate(asid, i, j);
      ghost var v := Snapshot();
      var r, t := PageLookup(pgdir, i, j, asid);
      while r == None
        invariant Ok() && spaces == vm.spaces
        invariant r == PageTables.PageLookup(Snapshot(), asid, i, j)
        invariant r.Some? ==> t == Pde(Snapshot(), asid, i).ppn
        invariant r == None ==> Snapshot() == v && !Valid(Pte(v, asid, i, j)) && Refillable(v, asid, i, j)
        invariant r.Some? ==> Some(Snapshot()) == Backed(v, asid, i, j)
        decreases if r == None then 1 else 0
      {
        ok := PassiveAlloc(pgdir, asid, i, j);
        if !ok {
          return;
        }
        r, t := PageLookup(pgdir, i, j, asid);
      }
      TlbWrite(t, asid, i, j, slot);
      ok := true;
    }

    /** Load both entries of the pair from the table page `t`, and tlbwr into `slot`. */
    method TlbWrite(t: nat, asid: nat, i: nat, j: nat, slot: nat)
      requires Ok() && asid in spaces && slot < tlb.Length && HasTable(i) && j < WORDS
      requires Valid(Pte(Snapshot(), asid, i, j)) && t == Pde(Snapshot(), asid, i).ppn
      modifies tlb
      ensures var u := old(Snapshot()); Snapshot() == u.(tlb := u.tlb[slot := PairEntry(u, asid, i, j)])
    {
      ghost var u := Snapshot();
      TableInRange(u, asid, i);
      var even := j / 2 * 2;
      tlb[slot] := TlbEntry(i, j / 2, asid, Hw(phys[t][even]), Hw(phys[t][even + 1]));
      assert tlb[..] == u.tlb[slot := PairEntry(u, asid, i, j)];
    }

    method SysMemAlloc(pgdir: nat, asid: nat, i: nat, j: nat, perm: bv12) returns (ok: bool)
      requires Ok() && Allowed(Snapshot(), MemAlloc(asid, i, j, perm)) && spaces[asid] == pgdir
      modifies this`free, phys, refs, tlb
      ensures (Snapshot(), ok) == PageTables.SysMemAlloc(old(Snapshot()), asid, i, j, perm)
      ensures Ok() && (ok ==> old(free) != [])
      ensures ok ==> Maps(old(Snapshot()), Snapshot(), Page(asid, i, j), old(free)[0], perm)
    {
      MemAllocIff(Snapshot(), asid, i, j, perm);
      ghost var vm := Snapshot();
      if !IsUser(i, j) {
        return false;
      }
      var pp := PageAlloc();
      if pp == None {
        return false;
      }
      AllocKeeps(vm);
      UnreferencedIfZero(Snapshot(), pp.value);
      ok := PageInsert(pgdir, asid, pp.value, i, j, perm);
    }

    method SysMemMap(srcdir: nat, src: nat, i: nat, j: nat, dstdir: nat, dst: nat, k: nat, l: nat, perm: bv12)
      returns (ok: bool)
      requires Ok() && Allowed(Snapshot(), MemMap(src, i, j, dst, k, l, perm))
      requires spaces[src] == srcdir && spaces[dst] == dstdir
      modifies this`free, phys, refs, tlb
      ensures (Snapshot(), ok) == PageTables.SysMemMap(old(Snapshot()), src, i, j, dst, k, l, perm)
      ensures Ok()
    {
      if !IsUser(i, j) || !IsUser(k, l) {
        return false;
      }
      var pp, _ := PageLookup(srcdir, i, j, src);
      if pp == None {
        return false;
      }
      MappedIsMappable(Snapshot(), src, i, j);
      ok := PageInsert(dstdir, dst, pp.value, k, l, perm);
    }

    /** Step 6 of sys_ipc_try_send, for a page from (i, j) of the sender to (k, l) of the receiver. */
    method SendPage(srcdir: nat, src: nat, i: nat, j: nat, dstdir: nat, dst: nat, k: nat, l: nat, perm: bv12)
      returns (ok: bool)
      requires Ok() && Allowed(Snapshot(), IpcSend(src, i, j, dst, k, l, perm))
      requires spaces[src] == srcdir && spaces[dst] == dstdir
      modifies this`free, phys, refs, tlb
      ensures (Snapshot(), ok) == IpcMap(old(Snapshot()), src, i, j, dst, k, l, perm)
      ensures Ok()
    {
      var pp, _ := PageLookup(srcdir, i, j, src);
      if pp == None {
        return false;
      }
      MappedIsMappable(Snapshot(), src, i, j);
      ok := PageInsert(dstdir, dst, pp.value, k, l, perm);
    }

    method SysMemUnmap(pgdir: nat, asid: nat, i: nat, j: nat) returns (ok: bool)
      requires Ok() && asid in spaces && spaces[asid] == pgdir
      modifies this`free, phys, refs, tlb
      ensures (Snapshot(), ok) == PageTables.SysMemUnmap(old(Snapshot()), asid, i, j)
      ensures Ok() && (ok <==> IsUser(i, j))
      ensures ok ==> ViewOf(Snapshot()) == ViewOf(old(Snapshot())) - {Page(asid, i, j)}
      ensures !ok ==> Snapshot() == old(Snapshot())
    {
      MemUnmapIff(Snapshot(), asid, i, j);
      if !IsUser(i, j) {
        return false;
      }
      PageRemove(pgdir, asid, i, j);
      ok := true;
    }
  }
}
