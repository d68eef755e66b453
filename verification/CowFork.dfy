/** Copy-on-write fork (user/lib/fork.c) as a machine whose steps are single system calls, faults
    and stores, interleaved over any number of environments; and the eager-copy machine that it
    must be indistinguishable from.

    A page table here is the map that module PageMap proves the two-level tables to be. */
module CowFork {
  import opened Mmu

  type Content = seq<nat>

  datatype Page = Page(e: nat, v: nat)   // virtual page v of environment e

  const UCOW := 1023           // page number of UCOW = UTEXT - PTMAP
  const USTACK_PAGE := 521214  // page number of USTACKTOP: fork copies the pages below it

  /** Where an environment is inside fork: at page `v` of the scan, with its permissions read, or
      between the two mem_map calls of duppage. */
  datatype Pc =
    | Idle
    | Scan(child: nat, v: nat)
    | Got(child: nat, v: nat, perm: bv12)
    | Half(child: nat, v: nat, perm: bv12)

  /** Where an environment is inside cow_entry, the TLB Mod handler. */
  datatype Fault =
    | NoFault
    | Faulted(v: nat, perm: bv12)
    | Allocated(v: nat, perm: bv12)
    | Copied(v: nat, perm: bv12)
    | Remapped(v: nat, perm: bv12)

  datatype St = St(pt: map<Page, Word>, data: map<nat, Content>,
                   pc: map<nat, Pc>, fault: map<nat, Fault>, known: set<nat>, runnable: set<nat>)

  /** Of the pages that a user may map, the two at the top of the stack are not inherited. */
  lemma InheritedIff(i: nat, j: nat)
    requires IsUser(i, j)
    ensures Vpn(i, j) < USTACK_PAGE <==> Address(i, j) < USTACKTOP
    ensures Vpn(i, j) < USTACK_PAGE <==> !(i == PDX_UTOP - 1 && j >= WORDS - 2)
  {
  }

  // ----- Permissions -----

  predicate Writable(f: bv12) { f & PTE_D != 0 }
  predicate Cow(f: bv12) { f & PTE_COW != 0 }
  predicate Library(f: bv12) { f & PTE_LIBRARY != 0 }

  /** Marked shared: PTE_LIBRARY, or PTE_D together with PTE_COW. */
  predicate Sharing(f: bv12) { Library(f) || (Writable(f) && Cow(f)) }

  /** Writable and owned by one mapping. */
  predicate Owned(f: bv12) { Writable(f) && !Cow(f) && !Library(f) }

  function CowPerm(f: bv12): bv12 { (f & !PTE_D) | PTE_COW }
  function CopyPerm(f: bv12): bv12 { (f & !PTE_COW) | PTE_D }

  lemma PermBits(f: bv12)
    ensures Cow(CowPerm(f)) && !Writable(CowPerm(f)) && Library(CowPerm(f)) == Library(f)
    ensures !Cow(CopyPerm(f)) && Writable(CopyPerm(f)) && Library(CopyPerm(f)) == Library(f)
  {
  }

  /** The other permissions are kept. */
  lemma OtherBits(f: bv12)
    ensures CowPerm(f) & !(PTE_COW | PTE_D) == CopyPerm(f) & !(PTE_COW | PTE_D) == f & !(PTE_COW | PTE_D)
  {
  }

  // ----- The machine -----

  function PcOf(st: St, e: nat): Pc { if e in st.pc then st.pc[e] else Idle }
  function FaultOf(st: St, e: nat): Fault { if e in st.fault then st.fault[e] else NoFault }

  /** Free to run its own code. */
  predicate Runs(st: St, e: nat) { e in st.runnable && FaultOf(st, e) == NoFault }

  predicate Unused(st: St, np: nat) { forall x :: x in st.pt ==> st.pt[x].ppn != np }

  datatype Event =
    | Store(e: nat, v: nat, off: nat, x: nat)            // by user code
    | CowAlloc(e: nat, np: nat, zero: Content)           // cow_entry: syscall_mem_alloc at UCOW
    | CowCopy(e: nat)                                    // cow_entry: memcpy
    | CowMap(e: nat)                                     // cow_entry: syscall_mem_map over the fault
    | CowUnmap(e: nat)                                   // cow_entry: syscall_mem_unmap of UCOW
    | Exofork(e: nat, child: nat)
    | DupRead(e: nat)                                    // fork loop: look at one page
    | DupMap1(e: nat)                                    // duppage: first mem_map, into the child
    | DupMap2(e: nat)                                    // duppage: second mem_map, onto itself
    | Alloc(e: nat, v: nat, perm: bv12, np: nat, zero: Content)
    | Unmap(e: nat, v: nat)

  function Put(c: Content, off: nat, x: nat): Content {
    if off < |c| then c[off := x] else c
  }

  predicate Enabled(st: St, ev: Event) {
    match ev
    case Store(e, v, off, x) => Runs(st, e) && v != UCOW && Page(e, v) in st.pt
    case CowAlloc(e, np, zero) => FaultOf(st, e).Faulted? && Unused(st, np)
    case CowCopy(e) => FaultOf(st, e).Allocated?
    case CowMap(e) => FaultOf(st, e).Copied?
    case CowUnmap(e) => FaultOf(st, e).Remapped?
    case Exofork(e, child) => Runs(st, e) && PcOf(st, e).Idle? && child !in st.known
    case DupRead(e) => Runs(st, e) && PcOf(st, e).Scan?
    case DupMap1(e) => Runs(st, e) && PcOf(st, e).Got?
    case DupMap2(e) => Runs(st, e) && PcOf(st, e).Half?
    case Alloc(e, v, perm, np, zero) =>
      // A user chooses no PTE_LIBRARY with a read-only PTE_COW; a demand page is not mapped yet.
      && Runs(st, e) && v != UCOW && Unused(st, np)
      && !(Library(perm) && Cow(perm) && !Writable(perm))
      && (PcOf(st, e).Idle? || Page(e, v) !in st.pt)
    case Unmap(e, v) => Runs(st, e) && v != UCOW && PcOf(st, e).Idle?
  }

  function Flags(st: St, x: Page): bv12 { if x in st.pt then st.pt[x].flags else 0 }
  function Ppn(st: St, x: Page): nat { if x in st.pt then st.pt[x].ppn else 0 }
  function Data(st: St, p: nat): Content { if p in st.data then st.data[p] else [] }

  function Step(st: St, ev: Event): St {
    match ev
    case Store(e, v, off, x) =>
      var f := Flags(st, Page(e, v));
      var p := Ppn(st, Page(e, v));
      if Writable(f) then st.(data := st.data[p := Put(Data(st, p), off, x)])
      else if Cow(f) then st.(fault := st.fault[e := Faulted(v, CopyPerm(f))])
      else st
    case CowAlloc(e, np, zero) =>
      var h := FaultOf(st, e);
      if !h.Faulted? then st
      else st.(pt := st.pt[Page(e, UCOW) := Word(np, h.perm)], data := st.data[np := zero],
               fault := st.fault[e := Allocated(h.v, h.perm)])
    case CowCopy(e) =>
      var h := FaultOf(st, e);
      if !h.Allocated? then st
      else st.(data := st.data[Ppn(st, Page(e, UCOW)) := Data(st, Ppn(st, Page(e, h.v)))],
               fault := st.fault[e := Copied(h.v, h.perm)])
    case CowMap(e) =>
      var h := FaultOf(st, e);
      if !h.Copied? then st
      else st.(pt := st.pt[Page(e, h.v) := Word(Ppn(st, Page(e, UCOW)), h.perm)],
               fault := st.fault[e := Remapped(h.v, h.perm)])
    case CowUnmap(e) =>
      st.(pt := st.pt - {Page(e, UCOW)}, fault := st.fault[e := NoFault])
    case Exofork(e, child) =>
      st.(known := st.known + {child}, pc := st.pc[e := Scan(child, 0)])
    case DupRead(e) =>
      var c := PcOf(st, e);
      if !c.Scan? then st
      else if USTACK_PAGE <= c.v then
        st.(runnable := st.runnable + {c.child}, pc := st.pc[e := Idle])
      else if Page(e, c.v) in st.pt then
        st.(pc := st.pc[e := Got(c.child, c.v, Flags(st, Page(e, c.v)))])
      else st.(pc := st.pc[e := Scan(c.child, c.v + 1)])
    case DupMap1(e) =>
      var c := PcOf(st, e);
      if !c.Got? then st
      else
        var p := Ppn(st, Page(e, c.v));
        if Owned(c.perm) then
          st.(pt := st.pt[Page(c.child, c.v) := Word(p, CowPerm(c.perm))],
              pc := st.pc[e := Half(c.child, c.v, c.perm)])
        else
          st.(pt := st.pt[Page(c.child, c.v) := Word(p, c.perm)],
              pc := st.pc[e := Scan(c.child, c.v + 1)])
    case DupMap2(e) =>
      var c := PcOf(st, e);
      if !c.Half? then st
      else
        st.(pt := st.pt[Page(e, c.v) := Word(Ppn(st, Page(e, c.v)), CowPerm(c.perm))],
            pc := st.pc[e := Scan(c.child, c.v + 1)])
    case Alloc(e, v, perm, np, zero) =>
      st.(pt := st.pt[Page(e, v) := Word(np, perm)], data := st.data[np := zero])
    case Unmap(e, v) =>
      st.(pt := st.pt - {Page(e, v)})
  }

  // ----- Invariant -----

  /** Page `y` is a child's page whose duppage has not returned yet. */
  ghost predicate Pending(st: St, y: Page) {
    exists e :: PcOf(st, e).Half? && y == Page(PcOf(st, e).child, PcOf(st, e).v)
  }

  predicate HalfDone(st: St, x: Page, y: Page) {
    var c := PcOf(st, x.e);
    c.Half? && c.v == x.v && y == Page(c.child, c.v)
  }

  /** A page with a private writable mapping has no other mapping, except that of a child whose
      duppage is half done; and all mappings of a page agree on whether it is shared. */
  ghost predicate NoAlias(st: St) {
    forall x, y :: x in st.pt && y in st.pt && x != y ==> Apart(st, x, y)
  }

  predicate Apart(st: St, x: Page, y: Page)
    requires x in st.pt && y in st.pt
  {
    st.pt[x].ppn == st.pt[y].ppn && x.v != UCOW && y.v != UCOW ==>
      (&& (Owned(st.pt[x].flags) ==> HalfDone(st, x, y))
       && Sharing(st.pt[x].flags) == Sharing(st.pt[y].flags))
  }

  ghost predicate FlagsOk(st: St) {
    forall x :: x in st.pt ==>
      var f := st.pt[x].flags; !(Library(f) && Cow(f) && !Writable(f))
  }

  ghost predicate FaultsOk(st: St) {
    forall e ::
      var h := FaultOf(st, e);
      && (Page(e, UCOW) in st.pt <==> h.Allocated? || h.Copied? || h.Remapped?)
      && (!h.NoFault? ==> HandlerOk(st, e, h))
  }

  ghost predicate HandlerOk(st: St, e: nat, h: Fault)
    requires !h.NoFault?
  {
    var x := Page(e, h.v);
    var u := Page(e, UCOW);
    && e in st.runnable && h.v != UCOW && x in st.pt && Owned(h.perm)
    && (!h.Remapped? ==> Cow(st.pt[x].flags) && !Writable(st.pt[x].flags)
                         && h.perm == CopyPerm(st.pt[x].flags))
    && (!h.Faulted? ==> u in st.pt && Sole(st, u, x, h.Remapped?))
    && (h.Copied? ==> u in st.pt && Data(st, st.pt[u].ppn) == Data(st, st.pt[x].ppn))
    && (h.Remapped? ==> u in st.pt && st.pt[x] == Word(st.pt[u].ppn, h.perm))
  }

  /** The page at UCOW is mapped nowhere else, except over the fault once that is remapped. */
  ghost predicate Sole(st: St, u: Page, x: Page, remapped: bool)
    requires u in st.pt
  {
    forall y :: y in st.pt && y != u && st.pt[y].ppn == st.pt[u].ppn ==> remapped && y == x
  }

  ghost predicate ForksOk(st: St) {
    && st.runnable <= st.known
    && (forall x :: x in st.pt ==> x.e in st.known)
    && (forall e :: !PcOf(st, e).Idle? ==> ForkOk(st, e, PcOf(st, e)))
    && OneParent(st)
  }

  ghost predicate OneParent(st: St) {
    forall e, g :: !PcOf(st, e).Idle? && !PcOf(st, g).Idle? && e != g ==>
      PcOf(st, e).child != PcOf(st, g).child
  }

  ghost predicate ForkOk(st: St, e: nat, c: Pc)
    requires !c.Idle?
  {
    var x := Page(e, c.v);
    var y := Page(c.child, c.v);
    && e in st.runnable && c.child in st.known && c.child !in st.runnable
    && (forall w :: (if c.Half? then c.v < w else c.v <= w) ==> Page(c.child, w) !in st.pt)
    && (c.Got? ==> c.v != UCOW && x in st.pt && SameOrCopied(st.pt[x].flags, c.perm))
    && (c.Half? ==> c.v != UCOW && x in st.pt && y in st.pt && Owned(c.perm) && st.pt[x].flags == c.perm
                    && st.pt[y] == Word(st.pt[x].ppn, CowPerm(c.perm)))
  }

  /** Between reading a page's permissions and the first mem_map only one thing can change them: a
      copy-on-write fault of the forking environment on that very page. */
  predicate SameOrCopied(now: bv12, read: bv12) {
    now == read || (Cow(read) && !Writable(read) && now == CopyPerm(read))
  }

  ghost predicate Inv(st: St) {
    NoAlias(st) && FlagsOk(st) && FaultsOk(st) && ForksOk(st)
  }
}
