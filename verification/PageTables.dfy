/** Physical pages, two-level page tables and the TLB (kern/pmap.c, kern/tlbex.c).

    Page tables are pages of the one physical memory `phys`.  Nothing here is a ready-made map:
    that the tables behave as one is proved in PageMap. */
module PageTables {
  import opened Basics
  import opened Mmu

  datatype TlbEntry = TlbEntry(pdx: nat, pair: nat, asid: nat, lo0: Word, lo1: Word)

  // What tlb_out writes over the entry it finds.
  const EMPTY := TlbEntry(0, 0, 0, ZERO, ZERO)

  /** The memory-management state.  `spaces` gives each live ASID its page-directory page; `kernel`
      holds the boot pages and the template directory `base` with its tables. */
  datatype Vm = Vm(phys: seq<Frame>, refs: seq<nat>, free: seq<nat>, tlb: seq<TlbEntry>,
                   spaces: map<nat, nat>, kernel: set<nat>, base: nat)

  function Load(phys: seq<Frame>, p: nat, i: nat): Word {
    if p < |phys| && i < |phys[p]| then phys[p][i] else ZERO
  }

  function Poke(phys: seq<Frame>, p: nat, i: nat, w: Word): (r: seq<Frame>) {
    if p < |phys| && i < |phys[p]| then phys[p := phys[p][i := w]] else phys
  }

  /** The page-directory entry of address space `a` at index `i`. */
  function Pde(vm: Vm, a: nat, i: nat): Word {
    if a in vm.spaces then Load(vm.phys, vm.spaces[a], i) else ZERO
  }

  /** The two-level walk the hardware sees.  For i = PDX_UVPT it reads the directory itself. */
  function Pte(vm: Vm, a: nat, i: nat, j: nat): Word {
    var d := Pde(vm, a, i);
    if Valid(d) then Load(vm.phys, d.ppn, j) else ZERO
  }

  // ----- Who points at a page -----

  datatype Ref = RootRef(a: nat) | PdeRef(a: nat, i: nat) | PteRef(a: nat, i: nat, j: nat)

  predicate Points(vm: Vm, x: Ref, p: nat) {
    x.a in vm.spaces &&
    match x
    case RootRef(a) => vm.spaces[a] == p
    case PdeRef(a, i) => i < PDX_UTOP && Valid(Pde(vm, a, i)) && Pde(vm, a, i).ppn == p
    case PteRef(a, i, j) =>
      i < PDX_UTOP && j < WORDS && Valid(Pte(vm, a, i, j)) && Pte(vm, a, i, j).ppn == p
  }

  function Universe(asids: set<nat>): (s: set<Ref>)
    ensures forall x: Ref :: x in s <==>
      x.a in asids && (x.RootRef? || (x.i < PDX_UTOP && (x.PteRef? ==> x.j < WORDS)))
  {
    (set a | a in asids :: RootRef(a)) +
    (set a, i: nat | a in asids && i < PDX_UTOP :: PdeRef(a, i)) +
    (set a, i: nat, j: nat | a in asids && i < PDX_UTOP && j < WORDS :: PteRef(a, i, j))
  }

  /** Every reference to page `p`: page-table entries, directory entries below UTOP, roots. */
  function Refs(vm: Vm, p: nat): (s: set<Ref>)
    ensures forall x :: x in s <==> Points(vm, x, p)
  {
    set x | x in Universe(vm.spaces.Keys) && Points(vm, x, p)
  }

  // ----- Invariants -----

  predicate Shape(vm: Vm) {
    && |vm.refs| == |vm.phys|
    && vm.base < |vm.phys| && vm.base in vm.kernel
    && (forall p :: 0 <= p < |vm.phys| ==> |vm.phys[p]| == WORDS)
    && (forall a :: a in vm.spaces ==> a < NASID)
  }

  /** Each directory: template entries at 509 and 510, itself at 511, nothing above. */
  ghost predicate Directories(vm: Vm) {
    && (forall a :: a in vm.spaces ==>
         Pde(vm, a, PDX_UVPT) == Word(vm.spaces[a], PTE_V))
    && (forall i: nat :: i == PDX_UTOP || i == PDX_UTOP + 1 ==>
         Valid(Load(vm.phys, vm.base, i)) && !Global(Load(vm.phys, vm.base, i)))
    && (forall a, i: nat :: a in vm.spaces && (i == PDX_UTOP || i == PDX_UTOP + 1) ==>
         Pde(vm, a, i) == Load(vm.phys, vm.base, i))
    && (forall a, i: nat :: a in vm.spaces && PDX_UVPT < i ==> Pde(vm, a, i) == ZERO)
    && (forall a, i: nat :: a in vm.spaces && i < PDX_UTOP ==>
         !Global(Pde(vm, a, i)) && (Valid(Pde(vm, a, i)) || Pde(vm, a, i) == ZERO))
    && (forall a, i: nat, j: nat :: a in vm.spaces && i < PDX_UTOP ==>
         !Global(Pte(vm, a, i, j)) &&
         if Valid(Pte(vm, a, i, j)) then MayMap(i, j) else Pte(vm, a, i, j) == ZERO)
  }

  /** Only allocated non-kernel pages are referenced, and a page directory or page table has one
      reference and no other: no two tables share a page, and no user page is a table. */
  ghost predicate Separate(vm: Vm) {
    && (forall x, p: nat :: Points(vm, x, p) ==> p < |vm.phys| && p !in vm.kernel)
    && (forall x, y, p: nat :: Points(vm, x, p) && Points(vm, y, p) && !x.PteRef? ==> x == y)
  }

  /** `pp_ref` counts references exactly. */
  predicate Exact(vm: Vm) {
    |vm.refs| == |vm.phys| &&
    forall p :: 0 <= p < |vm.phys| && p !in vm.kernel ==> vm.refs[p] == |Refs(vm, p)|
  }

  predicate FreeListOk(vm: Vm) {
    && NoDup(vm.free)
    && (forall p :: p in vm.free ==> p < |vm.phys| && p < |vm.refs| && p !in vm.kernel && vm.refs[p] == 0)
  }

  // ----- TLB -----

  predicate Hits(e: TlbEntry, i: nat, pair: nat, a: nat) {
    e.pdx == i && e.pair == pair && ((Global(e.lo0) && Global(e.lo1)) || e.asid == a)
  }

  /** The directory slots in the UVPT window whose translation is the same in every space. */
  predicate Common(i: nat, j: nat) {
    i == PDX_UVPT && (j == PDX_UTOP || j == PDX_UTOP + 1)
  }

  predicate HalfOk(vm: Vm, h: Word, a: nat, i: nat, j: nat) {
    !Global(h) &&
    (Valid(h) ==>
      if Common(i, j) then h == Hw(Load(vm.phys, vm.base, j))
      else a in vm.spaces && h == Hw(Pte(vm, a, i, j)))
  }

  /** Pages 0 and 1 of ASID 0: an entry that tlb_out has cleared answers for them, so that it can hide
      a live one. */
  predicate ZeroPair(e: TlbEntry) { e.pdx == 0 && e.pair == 0 && e.asid == 0 }

  predicate EntryOk(vm: Vm, e: TlbEntry) {
    if ZeroPair(e) then !Global(e.lo0) && !Global(e.lo1) else
    (&& (e.pdx < PDX_UTOP || e.pdx == PDX_UVPT)
     && HalfOk(vm, e.lo0, e.asid, e.pdx, 2 * e.pair)
     && HalfOk(vm, e.lo1, e.asid, e.pdx, 2 * e.pair + 1))
  }

  /** Every valid half is the owner's current entry, and no two entries answer the same probe; of pages
      0 and 1 of ASID 0 nothing is said. */
  predicate Coherent(vm: Vm) {
    && (forall k :: 0 <= k < |vm.tlb| ==> EntryOk(vm, vm.tlb[k]))
    && OneHit(vm.tlb)
  }

  predicate OneHit(tlb: seq<TlbEntry>) {
    forall k, l :: 0 <= k < l < |tlb| && !ZeroPair(tlb[k]) ==>
      !(tlb[k].pdx == tlb[l].pdx && tlb[k].pair == tlb[l].pair && tlb[k].asid == tlb[l].asid)
  }

  /** Page 0 of ASID 0 is not mapped, nor translated by any entry of the TLB. */
  predicate ZeroClean(vm: Vm) {
    && !Valid(Pte(vm, 0, 0, 0))
    && (forall k :: 0 <= k < |vm.tlb| && ZeroPair(vm.tlb[k]) ==> !Valid(vm.tlb[k].lo0) && !Valid(vm.tlb[k].lo1))
  }

  ghost predicate Inv(vm: Vm) {
    Shape(vm) && Directories(vm) && Separate(vm) && Exact(vm) && FreeListOk(vm) && Coherent(vm)
  }

  /** tlb_out: the probe finds one matching slot (the lowest here); it is overwritten. */
  function TlbOut(tlb: seq<TlbEntry>, i: nat, j: nat, a: nat): (r: seq<TlbEntry>)
    ensures |r| == |tlb|
  {
    if tlb == [] then []
    else if Hits(tlb[0], i, j / 2, a) then [EMPTY] + tlb[1..]
    else [tlb[0]] + TlbOut(tlb[1..], i, j, a)
  }

  // ----- kern/pmap.c -----

  // pp_ref is a u_short.
  function Inc(n: nat): nat { (n + 1) % 0x1_0000 }

  function PageAlloc(vm: Vm): (r: (Vm, Option<nat>)) {
    if vm.free == [] then (vm, None)
    else
      var pp := vm.free[0];
      (vm.(free := vm.free[1..],
           phys := if pp < |vm.phys| then vm.phys[pp := Zeros()] else vm.phys), Some(pp))
  }

  /** page_decref with page_free: the caller has pp_ref > 0. */
  function PageDecref(vm: Vm, pp: nat): Vm {
    if pp < |vm.refs| && vm.refs[pp] > 0 then
      vm.(refs := vm.refs[pp := vm.refs[pp] - 1],
          free := if vm.refs[pp] == 1 then [pp] + vm.free else vm.free)
    else vm
  }

  function IncRef(vm: Vm, pp: nat): Vm {
    if pp < |vm.refs| then vm.(refs := vm.refs[pp := Inc(vm.refs[pp])]) else vm
  }

  /** pgdir_walk with `create` set: None is -E_NO_MEM. */
  function WalkCreate(vm: Vm, a: nat, i: nat): (r: Option<Vm>)
    requires a in vm.spaces
  {
    if Valid(Pde(vm, a, i)) then Some(vm)
    else
      var (v, pp) := PageAlloc(vm);
      if pp.None? then None
      else
        var u := IncRef(v, pp.value);
        Some(u.(phys := Poke(u.phys, vm.spaces[a], i, Entry(pp.value, 0))))
  }

  function SetPte(vm: Vm, a: nat, i: nat, j: nat, w: Word): Vm {
    vm.(phys := Poke(vm.phys, Pde(vm, a, i).ppn, j, w))
  }

  function Invalidate(vm: Vm, a: nat, i: nat, j: nat): Vm {
    vm.(tlb := TlbOut(vm.tlb, i, j, a))
  }

  function PageLookup(vm: Vm, a: nat, i: nat, j: nat): Option<nat> {
    if Valid(Pte(vm, a, i, j)) then Some(Pte(vm, a, i, j).ppn) else None
  }

  function PageRemove(vm: Vm, a: nat, i: nat, j: nat): Vm {
    match PageLookup(vm, a, i, j)
    case None => vm
    case Some(pp) => Invalidate(SetPte(PageDecref(vm, pp), a, i, j, ZERO), a, i, j)
  }

  /** page_insert; the flag is false for -E_NO_MEM. */
  function PageInsert(vm: Vm, a: nat, i: nat, j: nat, pp: nat, perm: bv12): (r: (Vm, bool))
    requires a in vm.spaces
  {
    var was := PageLookup(vm, a, i, j);
    if was == Some(pp) then
      (SetPte(Invalidate(vm, a, i, j), a, i, j, Entry(pp, perm)), true)
    else
      var v := Invalidate(if was.Some? then PageRemove(vm, a, i, j) else vm, a, i, j);
      match WalkCreate(v, a, i)
      case None => (v, false)
      case Some(u) => (IncRef(SetPte(u, a, i, j, Entry(pp, perm)), pp), true)
  }

  // ----- kern/env.c: address spaces -----

  /** env_setup_vm for the environment that gets ASID `a`. */
  function SetupVm(vm: Vm, a: nat): (r: Option<Vm>) {
    var (v, pp) := PageAlloc(vm);
    if pp.None? then None
    else
      var u := IncRef(v, pp.value);
      Some(u.(spaces := u.spaces[a := pp.value],
              phys := Poke(Poke(Poke(u.phys,
                pp.value, PDX_UTOP, Load(u.phys, u.base, PDX_UTOP)),
                pp.value, PDX_UTOP + 1, Load(u.phys, u.base, PDX_UTOP + 1)),
                pp.value, PDX_UVPT, Word(pp.value, PTE_V))))
  }

  /** The inner loop of env_free: unmap entries `j` and up of table `i`. */
  function FreePtes(vm: Vm, a: nat, i: nat, j: nat): Vm
    decreases WORDS - j
  {
    if WORDS <= j then vm
    else FreePtes(if Valid(Pte(vm, a, i, j)) then PageRemove(vm, a, i, j) else vm, a, i, j + 1)
  }

  /** The page table itself: clear its directory entry, drop its page, flush its UVPT window page. */
  function DropTable(vm: Vm, a: nat, i: nat): Vm {
    if a !in vm.spaces then vm
    else
      var pt := Pde(vm, a, i).ppn;
      var v := vm.(phys := Poke(vm.phys, vm.spaces[a], i, ZERO));
      Invalidate(PageDecref(v, pt), a, PDX_UVPT, i)
  }

  /** One round of the outer loop of env_free. */
  function FreeTable(vm: Vm, a: nat, i: nat): Vm {
    if Valid(Pde(vm, a, i)) then DropTable(FreePtes(vm, a, i, 0), a, i) else vm
  }

  /** The outer loop of env_free, from directory entry `i` up. */
  function FreeTables(vm: Vm, a: nat, i: nat): Vm
    decreases PDX_UTOP - i
  {
    if PDX_UTOP <= i then vm else FreeTables(FreeTable(vm, a, i), a, i + 1)
  }

  /** The end of env_free: the directory page and the ASID. */
  function DropSpace(vm: Vm, a: nat): Vm {
    if a !in vm.spaces then vm
    else
      var v := Invalidate(PageDecref(vm, vm.spaces[a]), a, PDX_UVPT, PDX_UVPT);
      v.(spaces := v.spaces - {a})
  }

  function EnvFree(vm: Vm, a: nat): Vm {
    DropSpace(FreeTables(vm, a, 0), a)
  }

  // ----- kern/tlbex.c -----

  /** The addresses that passive_alloc accepts: user pages but for the one above the stack, and the
      window at UVPT. */
  predicate Backable(i: nat, j: nat) {
    (IsUser(i, j) && !(i == PDX_UTOP - 1 && j == PTX_UTEMP)) || (i == PDX_UVPT && j < WORDS)
  }

  /** passive_alloc; None is a kernel panic.  In the window it is a page table that is allocated. */
  function PassiveAlloc(vm: Vm, a: nat, i: nat, j: nat): Option<Vm>
    requires a in vm.spaces
  {
    if !Backable(i, j) then None
    else
      var (v, pp) := PageAlloc(vm);
      if pp.None? then None
      else
        var (u, ok) := PageInsert(v, a, i, j, pp.value, if i == PDX_UVPT then 0 else PTE_D);
        if ok then Some(u) else None
  }

  function PairEntry(vm: Vm, a: nat, i: nat, j: nat): TlbEntry {
    TlbEntry(i, j / 2, a, Hw(Pte(vm, a, i, 2 * (j / 2))), Hw(Pte(vm, a, i, 2 * (j / 2) + 1)))
  }

  /** The lookup loop of _do_tlb_refill: at most one page is allocated. */
  function Backed(vm: Vm, a: nat, i: nat, j: nat): Option<Vm>
    requires a in vm.spaces
  {
    if Valid(Pte(vm, a, i, j)) then Some(vm) else PassiveAlloc(vm, a, i, j)
  }

  /** _do_tlb_refill, then tlbwr into an arbitrary slot. */
  function Refill(vm: Vm, a: nat, i: nat, j: nat, slot: nat): Option<Vm>
    requires a in vm.spaces
  {
    var r := Backed(Invalidate(vm, a, i, j), a, i, j);
    if r.None? || |r.value.tlb| <= slot then None
    else Some(r.value.(tlb := r.value.tlb[slot := PairEntry(r.value, a, i, j)]))
  }

  // ----- kern/syscall_all.c and user stores -----

  /** sys_mem_alloc on an environment already resolved; the flag is false for an error. */
  function SysMemAlloc(vm: Vm, a: nat, i: nat, j: nat, perm: bv12): (Vm, bool)
    requires a in vm.spaces
  {
    if !IsUser(i, j) then (vm, false)
    else
      var (v, pp) := PageAlloc(vm);
      if pp.None? then (v, false) else PageInsert(v, a, i, j, pp.value, perm)
  }

  /** sys_mem_map from page (i, j) of `a` to page (k, l) of `b`. */
  function SysMemMap(vm: Vm, a: nat, i: nat, j: nat, b: nat, k: nat, l: nat, perm: bv12): (Vm, bool)
    requires a in vm.spaces && b in vm.spaces
  {
    if !IsUser(i, j) || !IsUser(k, l) then (vm, false)
    else
      match PageLookup(vm, a, i, j)
      case None => (vm, false)
      case Some(pp) => PageInsert(vm, b, k, l, pp, perm)
  }

  /** The end of sys_ipc_try_send: the sender's page (i, j) goes to page (k, l) of the receiver `b`, the
      page that it gave to sys_ipc_recv; address 0 is among these. */
  function IpcMap(vm: Vm, a: nat, i: nat, j: nat, b: nat, k: nat, l: nat, perm: bv12): (Vm, bool)
    requires a in vm.spaces && b in vm.spaces
  {
    match PageLookup(vm, a, i, j)
    case None => (vm, false)
    case Some(pp) => PageInsert(vm, b, k, l, pp, perm)
  }

  function SysMemUnmap(vm: Vm, a: nat, i: nat, j: nat): (Vm, bool) {
    if !IsUser(i, j) then (vm, false) else (PageRemove(vm, a, i, j), true)
  }

  /** A user store through a writable translation. */
  function UserStore(vm: Vm, a: nat, i: nat, j: nat, off: nat, w: Word): Vm {
    var e := Pte(vm, a, i, j);
    if i < PDX_UTOP && j < WORDS && Valid(e) && CanWrite(e)
    then vm.(phys := Poke(vm.phys, e.ppn, off, w)) else vm
  }
}
