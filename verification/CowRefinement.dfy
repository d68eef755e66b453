/** Copy-on-write refines eager copying: at every step of every run the contents that environments
    can read are those of a machine that copies each page when its duppage returns. */
module CowRefinement {
  import opened Mmu
  import opened CowFork

  // ----- The eager machine -----

  /** A virtual page as its environment sees it: its own contents, or a shared object. */
  datatype Cell =
    | Private(content: Content, writable: bool)
    | Shared(obj: nat, content: Content, writable: bool)

  type Memory = map<Page, Cell>

  datatype Label =
    | Tau
    | Write(x: Page, off: nat, val: nat)
    | Dup(x: Page, y: Page)              // y becomes a copy of x; a shared object stays shared
    | New(x: Page, cell: Cell)
    | Drop(x: Page)

  function EagerStep(m: Memory, l: Label): Memory {
    match l
    case Tau => m
    case Write(x, off, val) =>
      if x !in m then m
      else if m[x].Private? then m[x := Private(Put(m[x].content, off, val), m[x].writable)]
      else (map y | y in m ::
        if m[y].Shared? && m[y].obj == m[x].obj
        then Shared(m[y].obj, Put(m[y].content, off, val), m[y].writable) else m[y])
    case Dup(x, y) => if x in m then m[y := m[x]] else m
    case New(x, cell) => m[x := cell]
    case Drop(x) => m - {x}
  }

  /** What the eager machine is to its users: a page reads back what was stored to it, a copy reads as its
      original, stores to a private page are seen nowhere else, and those to a shared object wherever it
      is mapped. */
  lemma EagerReads(m: Memory, l: Label, y: Page)
    ensures var m' := EagerStep(m, l);
      if !Touches(m, l, y) then (y in m' <==> y in m) && (y in m ==> m'[y] == m[y])
      else match l
        case Tau => false
        case Write(x, off, val) => y in m' && Stored(m[y], m'[y], off, val)
        case Dup(x, _) => y in m' && m'[y] == m[x]
        case New(_, cell) => y in m' && m'[y] == cell
        case Drop(_) => y !in m'
  {
  }

  predicate Touches(m: Memory, l: Label, y: Page) {
    match l
    case Tau => false
    case Write(x, _, _) => x in m && Joined(m, x, y)
    case Dup(x, z) => y == z && x in m
    case New(x, _) => y == x
    case Drop(x) => y == x
  }

  /** Page `y` shows what is stored to page `x`. */
  predicate Joined(m: Memory, x: Page, y: Page)
    requires x in m
  {
    y in m && (y == x || (m[x].Shared? && m[y].Shared? && m[y].obj == m[x].obj))
  }

  predicate Stored(was: Cell, now: Cell, off: nat, val: nat) {
    && now.Private? == was.Private? && now.writable == was.writable
    && (now.Shared? && was.Shared? ==> now.obj == was.obj) && |now.content| == |was.content|
    && forall k :: 0 <= k < |now.content| ==> now.content[k] == if k == off then val else was.content[k]
  }

  // ----- What a copy-on-write state means -----

  function CellOf(w: Word, c: Content): Cell {
    if Sharing(w.flags) then Shared(w.ppn, c, Writable(w.flags))
    else Private(c, Writable(w.flags) || Cow(w.flags))
  }

  ghost predicate Visible(st: St, x: Page) {
    x in st.pt && x.v != UCOW && !Pending(st, x)
  }

  ghost function Abs(st: St): Memory {
    map x | x in st.pt && Visible(st, x) :: CellOf(st.pt[x], Data(st, st.pt[x].ppn))
  }

  function LabelOf(st: St, ev: Event): Label {
    match ev
    case Store(e, v, off, x) =>
      if Writable(Flags(st, Page(e, v))) then Write(Page(e, v), off, x) else Tau
    case DupMap1(e) =>
      var c := PcOf(st, e);
      if c.Got? && !Owned(c.perm) then Dup(Page(e, c.v), Page(c.child, c.v)) else Tau
    case DupMap2(e) =>
      var c := PcOf(st, e);
      if c.Half? then Dup(Page(e, c.v), Page(c.child, c.v)) else Tau
    case Alloc(e, v, perm, np, zero) => New(Page(e, v), CellOf(Word(np, perm), zero))
    case Unmap(e, v) => Drop(Page(e, v))
    case _ => Tau
  }

  // ----- Stores -----

  lemma StoreWriter(st: St, e: nat, v: nat, g: nat)
    requires Inv(st) && Runs(st, e) && v != UCOW && Page(e, v) in st.pt
    requires Writable(st.pt[Page(e, v)].flags) && FaultOf(st, g).Copied?
    ensures Page(g, UCOW) in st.pt && Page(g, FaultOf(st, g).v) in st.pt
    ensures st.pt[Page(e, v)].ppn != st.pt[Page(g, UCOW)].ppn
    ensures st.pt[Page(e, v)].ppn != st.pt[Page(g, FaultOf(st, g).v)].ppn
  {
    var h := FaultOf(st, g);
    assert HandlerOk(st, g, h);
    var x := Page(g, h.v);
    var y := Page(e, v);
    assert Apart(st, y, x);
  }

  lemma StoreKeeps(st: St, e: nat, v: nat, off: nat, x: nat)
    requires Inv(st) && Enabled(st, Store(e, v, off, x))
    ensures Inv(Step(st, Store(e, v, off, x)))
  {
    var st' := Step(st, Store(e, v, off, x));
    var f := st.pt[Page(e, v)].flags;
    PermBits(f);
    assert forall g :: PcOf(st', g) == PcOf(st, g);
    forall y, z | y in st.pt && z in st.pt && y != z ensures Apart(st', y, z) {
      assert Apart(st, y, z);
    }
    forall g | !PcOf(st', g).Idle? ensures ForkOk(st', g, PcOf(st', g)) {
      assert ForkOk(st, g, PcOf(st, g));
    }
    forall g | !FaultOf(st', g).NoFault? ensures HandlerOk(st', g, FaultOf(st', g)) {
      if FaultOf(st', g) == FaultOf(st, g) {
        var h := FaultOf(st, g);
        assert HandlerOk(st, g, h);
        if h.Copied? && Writable(f) {
          StoreWriter(st, e, v, g);
        }
      }
    }
    forall g ensures Page(g, UCOW) in st'.pt <==>
      FaultOf(st', g).Allocated? || FaultOf(st', g).Copied? || FaultOf(st', g).Remapped?
    {
      if g == e {
        assert FaultOf(st, e).NoFault?;
      }
    }
  }

  lemma StoreVisible(st: St, e: nat, v: nat, y: Page)
    requires Inv(st) && Runs(st, e) && v != UCOW && Page(e, v) in st.pt && Visible(st, y)
    requires Writable(st.pt[Page(e, v)].flags) && y != Page(e, v)
    requires st.pt[y].ppn == st.pt[Page(e, v)].ppn
    ensures Sharing(st.pt[Page(e, v)].flags) && Sharing(st.pt[y].flags)
  {
    assert Apart(st, Page(e, v), y);
  }

  lemma StoreRefines(st: St, e: nat, v: nat, off: nat, x: nat)
    requires Inv(st) && Enabled(st, Store(e, v, off, x))
    ensures Abs(Step(st, Store(e, v, off, x))) == EagerStep(Abs(st), LabelOf(st, Store(e, v, off, x)))
  {
    var ev := Store(e, v, off, x);
    var st' := Step(st, ev);
    var p := Page(e, v);
    assert forall g :: PcOf(st', g) == PcOf(st, g);
    assert forall y :: Visible(st', y) <==> Visible(st, y);
    NotPending(st, p);
    if Writable(st.pt[p].flags) {
      forall y | Visible(st, y) && y != p && st.pt[y].ppn == st.pt[p].ppn
        ensures Sharing(st.pt[p].flags) && Sharing(st.pt[y].flags)
      {
        StoreVisible(st, e, v, y);
      }
    }
  }

  /** A running environment sees all its pages. */
  lemma NotPending(st: St, x: Page)
    requires Inv(st) && x.e in st.runnable
    ensures !Pending(st, x)
  {
    forall g | PcOf(st, g).Half? ensures PcOf(st, g).child != x.e {
      assert ForkOk(st, g, PcOf(st, g));
    }
  }

  // ----- The fault handler -----

  /** What every step must re-establish, in one place: pairs, forks and handlers. */
  lemma InvFrom(st: St)
    requires FlagsOk(st) && st.runnable <= st.known && forall x :: x in st.pt ==> x.e in st.known
    requires forall x, y :: x in st.pt && y in st.pt && x != y ==> Apart(st, x, y)
    requires forall e :: !PcOf(st, e).Idle? ==> ForkOk(st, e, PcOf(st, e))
    requires OneParent(st)
    requires forall e :: !FaultOf(st, e).NoFault? ==> HandlerOk(st, e, FaultOf(st, e))
    requires forall e :: Page(e, UCOW) in st.pt <==>
      FaultOf(st, e).Allocated? || FaultOf(st, e).Copied? || FaultOf(st, e).Remapped?
    ensures Inv(st)
  {
  }

  lemma OneParentAfter(st: St, st': St, e: nat)
    requires OneParent(st) && forall g :: g != e ==> PcOf(st', g) == PcOf(st, g)
    requires PcOf(st', e).Idle? || (!PcOf(st, e).Idle? && PcOf(st', e).child == PcOf(st, e).child)
      || (forall g :: g != e && !PcOf(st, g).Idle? ==> PcOf(st, g).child != PcOf(st', e).child)
    ensures OneParent(st')
  {
  }

  lemma CowAllocKeeps(st: St, e: nat, np: nat, zero: Content)
    requires Inv(st) && Enabled(st, CowAlloc(e, np, zero))
    ensures Inv(Step(st, CowAlloc(e, np, zero)))
  {
    var st' := Step(st, CowAlloc(e, np, zero));
    var u := Page(e, UCOW);
    assert HandlerOk(st, e, FaultOf(st, e));
    assert forall g :: PcOf(st', g) == PcOf(st, g);
    forall y, z | y in st'.pt && z in st'.pt && y != z ensures Apart(st', y, z) {
      if y != u && z != u {
        assert Apart(st, y, z);
      }
    }
    forall g | !PcOf(st', g).Idle? ensures ForkOk(st', g, PcOf(st', g)) {
      assert ForkOk(st, g, PcOf(st, g));
    }
    forall g | !FaultOf(st', g).NoFault? ensures HandlerOk(st', g, FaultOf(st', g)) {
      if g != e {
        assert HandlerOk(st, g, FaultOf(st, g));
      }
    }
    InvFrom(st');
  }

  lemma CowAllocHidden(st: St, e: nat, np: nat, zero: Content)
    requires Inv(st) && Enabled(st, CowAlloc(e, np, zero))
    ensures Abs(Step(st, CowAlloc(e, np, zero))) == Abs(st)
  {
    var st' := Step(st, CowAlloc(e, np, zero));
    assert HandlerOk(st, e, FaultOf(st, e));
    assert forall g :: PcOf(st', g) == PcOf(st, g);
    assert forall y :: Visible(st', y) <==> Visible(st, y);
  }

  lemma CowCopyOther(st: St, e: nat, g: nat)
    requires Inv(st) && Enabled(st, CowCopy(e))
    ensures var st' := Step(st, CowCopy(e));
      && (!FaultOf(st', g).NoFault? ==> HandlerOk(st', g, FaultOf(st', g)))
      && (!PcOf(st', g).Idle? ==> ForkOk(st', g, PcOf(st', g)))
  {
    assert HandlerOk(st, e, FaultOf(st, e));
    assert !PcOf(st, g).Idle? ==> ForkOk(st, g, PcOf(st, g));
    assert !FaultOf(st, g).NoFault? ==> HandlerOk(st, g, FaultOf(st, g));
  }

  lemma CowCopyKeeps(st: St, e: nat)
    requires Inv(st) && Enabled(st, CowCopy(e))
    ensures Inv(Step(st, CowCopy(e)))
  {
    var st' := Step(st, CowCopy(e));
    assert HandlerOk(st, e, FaultOf(st, e));
    assert forall g :: PcOf(st', g) == PcOf(st, g);
    forall y, z | y in st'.pt && z in st'.pt && y != z ensures Apart(st', y, z) {
      assert Apart(st, y, z);
    }
    forall g ensures !FaultOf(st', g).NoFault? ==> HandlerOk(st', g, FaultOf(st', g))
      ensures !PcOf(st', g).Idle? ==> ForkOk(st', g, PcOf(st', g))
    {
      CowCopyOther(st, e, g);
    }
    InvFrom(st');
  }

  lemma CowCopyHidden(st: St, e: nat)
    requires Inv(st) && Enabled(st, CowCopy(e))
    ensures Abs(Step(st, CowCopy(e))) == Abs(st)
  {
    var st' := Step(st, CowCopy(e));
    assert HandlerOk(st, e, FaultOf(st, e));
    assert forall g :: PcOf(st', g) == PcOf(st, g);
    assert forall y :: Visible(st', y) <==> Visible(st, y);
  }

  lemma CowMapKeeps(st: St, e: nat)
    requires Inv(st) && Enabled(st, CowMap(e))
    ensures Inv(Step(st, CowMap(e)))
  {
    var st' := Step(st, CowMap(e));
    var h := FaultOf(st, e);
    var x := Page(e, h.v);
    var u := Page(e, UCOW);
    assert HandlerOk(st, e, h);
    assert forall g :: PcOf(st', g) == PcOf(st, g);
    forall y, z | y in st'.pt && z in st'.pt && y != z ensures Apart(st', y, z) {
      assert Apart(st, y, z);
    }
    forall g | !PcOf(st', g).Idle? ensures ForkOk(st', g, PcOf(st', g)) {
      assert ForkOk(st, g, PcOf(st, g));
      PermBits(st.pt[x].flags);
    }
    forall g | !FaultOf(st', g).NoFault? ensures HandlerOk(st', g, FaultOf(st', g)) {
      assert FaultOf(st', g) == (if g == e then Remapped(h.v, h.perm) else FaultOf(st, g));
      if g != e {
        assert HandlerOk(st, g, FaultOf(st, g));
      }
    }
    InvFrom(st');
  }

  lemma CowMapHidden(st: St, e: nat)
    requires Inv(st) && Enabled(st, CowMap(e))
    ensures Abs(Step(st, CowMap(e))) == Abs(st)
  {
    var st' := Step(st, CowMap(e));
    var h := FaultOf(st, e);
    assert HandlerOk(st, e, h);
    assert forall g :: PcOf(st', g) == PcOf(st, g);
    assert forall y :: Visible(st', y) <==> Visible(st, y);
  }

  lemma CowUnmapKeeps(st: St, e: nat)
    requires Inv(st) && Enabled(st, CowUnmap(e))
    ensures Inv(Step(st, CowUnmap(e)))
  {
    var st' := Step(st, CowUnmap(e));
    assert HandlerOk(st, e, FaultOf(st, e));
    assert forall g :: PcOf(st', g) == PcOf(st, g);
    forall y, z | y in st'.pt && z in st'.pt && y != z ensures Apart(st', y, z) {
      assert Apart(st, y, z);
    }
    forall g | !PcOf(st', g).Idle? ensures ForkOk(st', g, PcOf(st', g)) {
      assert ForkOk(st, g, PcOf(st, g));
    }
    forall g | !FaultOf(st', g).NoFault? ensures HandlerOk(st', g, FaultOf(st', g)) {
      assert HandlerOk(st, g, FaultOf(st, g));
    }
    InvFrom(st');
  }

  lemma CowUnmapHidden(st: St, e: nat)
    requires Inv(st) && Enabled(st, CowUnmap(e))
    ensures Abs(Step(st, CowUnmap(e))) == Abs(st)
  {
    var st' := Step(st, CowUnmap(e));
    assert forall g :: PcOf(st', g) == PcOf(st, g);
    assert forall y :: Visible(st', y) <==> Visible(st, y);
  }

  // ----- fork -----

  lemma ExoforkKeeps(st: St, e: nat, child: nat)
    requires Inv(st) && Enabled(st, Exofork(e, child))
    ensures Inv(Step(st, Exofork(e, child)))
  {
    var st' := Step(st, Exofork(e, child));
    forall y, z | y in st'.pt && z in st'.pt && y != z ensures Apart(st', y, z) {
      assert Apart(st, y, z);
    }
    forall g | !PcOf(st', g).Idle? ensures ForkOk(st', g, PcOf(st', g)) {
      if g != e {
        assert ForkOk(st, g, PcOf(st, g));
      }
    }
    forall g | !FaultOf(st', g).NoFault? ensures HandlerOk(st', g, FaultOf(st', g)) {
      assert HandlerOk(st, g, FaultOf(st, g));
    }
    forall g | g != e && !PcOf(st, g).Idle? ensures PcOf(st, g).child != child {
      assert ForkOk(st, g, PcOf(st, g));
    }
    OneParentAfter(st, st', e);
    InvFrom(st');
  }

  lemma ExoforkHidden(st: St, e: nat, child: nat)
    requires Inv(st) && Enabled(st, Exofork(e, child))
    ensures Abs(Step(st, Exofork(e, child))) == Abs(st)
  {
    var st' := Step(st, Exofork(e, child));
    assert forall g :: g != e ==> PcOf(st', g) == PcOf(st, g);
    assert forall y :: Visible(st', y) <==> Visible(st, y);
  }

  lemma DupReadFork(st: St, e: nat, g: nat)
    requires Inv(st) && Enabled(st, DupRead(e)) && !PcOf(Step(st, DupRead(e)), g).Idle?
    ensures ForkOk(Step(st, DupRead(e)), g, PcOf(Step(st, DupRead(e)), g))
  {
    assert ForkOk(st, e, PcOf(st, e));
    assert ForkOk(st, g, PcOf(st, g));
  }

  lemma DupReadFault(st: St, e: nat, g: nat)
    requires Inv(st) && Enabled(st, DupRead(e))
    ensures var st' := Step(st, DupRead(e));
      FaultOf(st', g) == FaultOf(st, g) && (!FaultOf(st', g).NoFault? ==> HandlerOk(st', g, FaultOf(st', g)))
  {
    assert !FaultOf(st, g).NoFault? ==> HandlerOk(st, g, FaultOf(st, g));
  }

  lemma DupReadKeeps(st: St, e: nat)
    requires Inv(st) && Enabled(st, DupRead(e))
    ensures Inv(Step(st, DupRead(e)))
  {
    var st' := Step(st, DupRead(e));
    assert ForkOk(st, e, PcOf(st, e));
    assert forall g :: g != e ==> PcOf(st', g) == PcOf(st, g);
    forall g ensures FaultOf(st', g) == FaultOf(st, g)
      ensures !FaultOf(st', g).NoFault? ==> HandlerOk(st', g, FaultOf(st', g))
    {
      DupReadFault(st, e, g);
    }
    forall y, z | y in st'.pt && z in st'.pt && y != z ensures Apart(st', y, z) {
      assert Apart(st, y, z);
    }
    forall g | !PcOf(st', g).Idle? ensures ForkOk(st', g, PcOf(st', g)) {
      DupReadFork(st, e, g);
    }
    OneParentAfter(st, st', e);
    InvFrom(st');
  }

  lemma DupReadRefines(st: St, e: nat)
    requires Enabled(st, DupRead(e))
    ensures Abs(Step(st, DupRead(e))) == Abs(st)
  {
    var st' := Step(st, DupRead(e));
    assert forall g :: g != e ==> PcOf(st', g) == PcOf(st, g);
    assert forall y :: Visible(st', y) <==> Visible(st, y);
  }

  /** The permissions read are still those of the page when the first mem_map is made. */
  predicate Steady(st: St, ev: Event) {
    ev.DupMap1? ==>
      (var c := PcOf(st, ev.e); c.Got? ==> c.perm == Flags(st, Page(ev.e, c.v)))
  }

  lemma DupMap1Apart(st: St, e: nat, a: Page, b: Page)
    requires Inv(st) && Enabled(st, DupMap1(e)) && Steady(st, DupMap1(e))
    requires var st' := Step(st, DupMap1(e)); a in st'.pt && b in st'.pt && a != b
    ensures Apart(Step(st, DupMap1(e)), a, b)
  {
    var c := PcOf(st, e);
    var x := Page(e, c.v);
    var y := Page(c.child, c.v);
    assert ForkOk(st, e, c);
    PermBits(c.perm);
    NotPending(st, x);
    if a != y && b != y {
      assert Apart(st, a, b);
    } else if a == y && b != x {
      assert Apart(st, b, x) && Apart(st, x, b);
    } else if b == y && a != x {
      assert Apart(st, a, x) && Apart(st, x, a);
    }
  }

  lemma DupMap1Other(st: St, e: nat, g: nat)
    requires Inv(st) && Enabled(st, DupMap1(e)) && Steady(st, DupMap1(e))
    ensures var st' := Step(st, DupMap1(e));
      && FaultOf(st', g) == FaultOf(st, g) && (!FaultOf(st', g).NoFault? ==> HandlerOk(st', g, FaultOf(st', g)))
      && (!PcOf(st', g).Idle? ==> ForkOk(st', g, PcOf(st', g)))
  {
    assert ForkOk(st, e, PcOf(st, e));
    assert !PcOf(st, g).Idle? ==> ForkOk(st, g, PcOf(st, g));
    assert !FaultOf(st, g).NoFault? ==> HandlerOk(st, g, FaultOf(st, g));
    PermBits(PcOf(st, e).perm);
  }

  lemma DupMap1Keeps(st: St, e: nat)
    requires Inv(st) && Enabled(st, DupMap1(e)) && Steady(st, DupMap1(e))
    ensures Inv(Step(st, DupMap1(e)))
  {
    var st' := Step(st, DupMap1(e));
    var c := PcOf(st, e);
    assert ForkOk(st, e, c);
    PermBits(c.perm);
    forall a, b | a in st'.pt && b in st'.pt && a != b ensures Apart(st', a, b) {
      DupMap1Apart(st, e, a, b);
    }
    assert forall g :: g != e ==> PcOf(st', g) == PcOf(st, g);
    forall g ensures FaultOf(st', g) == FaultOf(st, g)
      ensures !FaultOf(st', g).NoFault? ==> HandlerOk(st', g, FaultOf(st', g))
      ensures !PcOf(st', g).Idle? ==> ForkOk(st', g, PcOf(st', g))
    {
      DupMap1Other(st, e, g);
    }
    OneParentAfter(st, st', e);
    InvFrom(st');
  }

  lemma DupMap1Refines(st: St, e: nat)
    requires Inv(st) && Enabled(st, DupMap1(e)) && Steady(st, DupMap1(e))
    ensures Abs(Step(st, DupMap1(e))) == EagerStep(Abs(st), LabelOf(st, DupMap1(e)))
  {
    var st' := Step(st, DupMap1(e));
    var c := PcOf(st, e);
    var x := Page(e, c.v);
    var y := Page(c.child, c.v);
    assert ForkOk(st, e, c);
    NotPending(st, x);
    var m := EagerStep(Abs(st), LabelOf(st, DupMap1(e)));
    assert forall g :: g != e ==> PcOf(st', g) == PcOf(st, g);
    forall z | z != y ensures Pending(st', z) <==> Pending(st, z) {
    }
    if Owned(c.perm) {
      assert PcOf(st', e).Half?;
      assert Pending(st', y);
    } else {
      assert !Pending(st', y);
    }
  }

  lemma DupMap2Keeps(st: St, e: nat)
    requires Inv(st) && Enabled(st, DupMap2(e))
    ensures Inv(Step(st, DupMap2(e)))
  {
    var st' := Step(st, DupMap2(e));
    var c := PcOf(st, e);
    var x := Page(e, c.v);
    assert ForkOk(st, e, c);
    PermBits(c.perm);
    forall a, b | a in st'.pt && b in st'.pt && a != b ensures Apart(st', a, b) {
      assert Apart(st, a, b) && Apart(st, b, a);
    }
    forall g | !PcOf(st', g).Idle? ensures ForkOk(st', g, PcOf(st', g)) {
      assert ForkOk(st, g, PcOf(st, g));
    }
    forall g | !FaultOf(st', g).NoFault? ensures HandlerOk(st', g, FaultOf(st', g)) {
      assert HandlerOk(st, g, FaultOf(st, g));
    }
    OneParentAfter(st, st', e);
    InvFrom(st');
  }

  lemma DupMap2Refines(st: St, e: nat)
    requires Inv(st) && Enabled(st, DupMap2(e))
    ensures Abs(Step(st, DupMap2(e))) == EagerStep(Abs(st), LabelOf(st, DupMap2(e)))
  {
    var st' := Step(st, DupMap2(e));
    var c := PcOf(st, e);
    var x := Page(e, c.v);
    var y := Page(c.child, c.v);
    assert ForkOk(st, e, c);
    PermBits(c.perm);
    NotPending(st, x);
    assert forall g :: g != e ==> PcOf(st', g) == PcOf(st, g);
    forall z | z != y ensures Pending(st', z) <==> Pending(st, z) {
    }
    assert !Pending(st', y);
  }

  // ----- Allocation and unmapping -----

  lemma AllocKeeps(st: St, e: nat, v: nat, perm: bv12, np: nat, zero: Content)
    requires Inv(st) && Enabled(st, Alloc(e, v, perm, np, zero))
    ensures Inv(Step(st, Alloc(e, v, perm, np, zero)))
  {
    var st' := Step(st, Alloc(e, v, perm, np, zero));
    var x := Page(e, v);
    NotPending(st, x);
    forall a, b | a in st'.pt && b in st'.pt && a != b ensures Apart(st', a, b) {
      if a != x && b != x {
        assert Apart(st, a, b);
      }
    }
    assert forall g :: PcOf(st', g) == PcOf(st, g) && FaultOf(st', g) == FaultOf(st, g);
    forall g | !PcOf(st', g).Idle? ensures ForkOk(st', g, PcOf(st', g)) {
      assert ForkOk(st, g, PcOf(st, g));
    }
    forall g | !FaultOf(st', g).NoFault? ensures HandlerOk(st', g, FaultOf(st', g)) {
      assert HandlerOk(st, g, FaultOf(st, g));
    }
    InvFrom(st');
  }

  lemma AllocRefines(st: St, e: nat, v: nat, perm: bv12, np: nat, zero: Content)
    requires Inv(st) && Enabled(st, Alloc(e, v, perm, np, zero))
    ensures Abs(Step(st, Alloc(e, v, perm, np, zero))) ==
            EagerStep(Abs(st), LabelOf(st, Alloc(e, v, perm, np, zero)))
  {
    var st' := Step(st, Alloc(e, v, perm, np, zero));
    NotPending(st, Page(e, v));
    assert forall g :: PcOf(st', g) == PcOf(st, g);
    assert forall y :: Pending(st', y) <==> Pending(st, y);
  }

  lemma UnmapKeeps(st: St, e: nat, v: nat)
    requires Inv(st) && Enabled(st, Unmap(e, v))
    ensures Inv(Step(st, Unmap(e, v)))
  {
    var st' := Step(st, Unmap(e, v));
    forall a, b | a in st'.pt && b in st'.pt && a != b ensures Apart(st', a, b) {
      assert Apart(st, a, b);
    }
    assert forall g :: PcOf(st', g) == PcOf(st, g) && FaultOf(st', g) == FaultOf(st, g);
    forall g | !PcOf(st', g).Idle? ensures ForkOk(st', g, PcOf(st', g)) {
      assert ForkOk(st, g, PcOf(st, g));
    }
    forall g | !FaultOf(st', g).NoFault? ensures HandlerOk(st', g, FaultOf(st', g)) {
      assert HandlerOk(st, g, FaultOf(st, g));
    }
    InvFrom(st');
  }

  lemma UnmapRefines(st: St, e: nat, v: nat)
    requires Inv(st) && Enabled(st, Unmap(e, v))
    ensures Abs(Step(st, Unmap(e, v))) == EagerStep(Abs(st), LabelOf(st, Unmap(e, v)))
  {
    var st' := Step(st, Unmap(e, v));
    assert forall g :: PcOf(st', g) == PcOf(st, g);
    assert forall y :: Pending(st', y) <==> Pending(st, y);
  }

  // ----- Main results -----

  lemma StepKeeps(st: St, ev: Event)
    requires Inv(st) && Enabled(st, ev) && Steady(st, ev)
    ensures Inv(Step(st, ev))
  {
    match ev
    case Store(e, v, off, x) => StoreKeeps(st, e, v, off, x);
    case CowAlloc(e, np, zero) => CowAllocKeeps(st, e, np, zero);
    case CowCopy(e) => CowCopyKeeps(st, e);
    case CowMap(e) => CowMapKeeps(st, e);
    case CowUnmap(e) => CowUnmapKeeps(st, e);
    case Exofork(e, child) => ExoforkKeeps(st, e, child);
    case DupRead(e) => DupReadKeeps(st, e);
    case DupMap1(e) => DupMap1Keeps(st, e);
    case DupMap2(e) => DupMap2Keeps(st, e);
    case Alloc(e, v, perm, np, zero) => AllocKeeps(st, e, v, perm, np, zero);
    case Unmap(e, v) => UnmapKeeps(st, e, v);
  }

  lemma StepRefines(st: St, ev: Event)
    requires Inv(st) && Enabled(st, ev) && Steady(st, ev)
    ensures Abs(Step(st, ev)) == EagerStep(Abs(st), LabelOf(st, ev))
  {
    match ev
    case Store(e, v, off, x) => StoreRefines(st, e, v, off, x);
    case CowAlloc(e, np, zero) => CowAllocHidden(st, e, np, zero);
    case CowCopy(e) => CowCopyHidden(st, e);
    case CowMap(e) => CowMapHidden(st, e);
    case CowUnmap(e) => CowUnmapHidden(st, e);
    case Exofork(e, child) => ExoforkHidden(st, e, child);
    case DupRead(e) => DupReadRefines(st, e);
    case DupMap1(e) => DupMap1Refines(st, e);
    case DupMap2(e) => DupMap2Refines(st, e);
    case Alloc(e, v, perm, np, zero) => AllocRefines(st, e, v, perm, np, zero);
    case Unmap(e, v) => UnmapRefines(st, e, v);
  }

  predicate Possible(st: St, evs: seq<Event>)
    decreases |evs|
  {
    evs == [] || (Enabled(st, evs[0]) && Steady(st, evs[0]) && Possible(Step(st, evs[0]), evs[1..]))
  }

  function Run(st: St, evs: seq<Event>): St
    decreases |evs|
  {
    if evs == [] then st else Run(Step(st, evs[0]), evs[1..])
  }

  /** The eager machine driven by the same run. */
  function EagerRun(m: Memory, st: St, evs: seq<Event>): Memory
    decreases |evs|
  {
    if evs == [] then m
    else EagerRun(EagerStep(m, LabelOf(st, evs[0])), Step(st, evs[0]), evs[1..])
  }

  /** Copy-on-write refines eager copying over whole runs. */
  lemma {:induction false} CowRefinesEagerCopy(st: St, evs: seq<Event>)
    requires Inv(st) && Possible(st, evs)
    ensures Inv(Run(st, evs)) && Abs(Run(st, evs)) == EagerRun(Abs(st), st, evs)
    decreases |evs|
  {
    if evs != [] {
      StepKeeps(st, evs[0]);
      StepRefines(st, evs[0]);
      CowRefinesEagerCopy(Step(st, evs[0]), evs[1..]);
    }
  }

  lemma HalfIsPending(st: St, e: nat)
    requires PcOf(st, e).Half?
    ensures Pending(st, Page(PcOf(st, e).child, PcOf(st, e).v))
  {
  }

  function Actor(ev: Event): nat { ev.e }

  lemma LabelAvoids(st: St, ev: Event, x: Page)
    requires Inv(st) && Enabled(st, ev) && Visible(st, x) && Actor(ev) != x.e
    ensures var l := LabelOf(st, ev);
      && (l.Write? || l.New? || l.Drop? ==> l.x != x)
      && (l.Dup? ==> l.y != x)
  {
    var c := PcOf(st, ev.e);
    if ev.DupMap1? {
      assert ForkOk(st, ev.e, c);
    }
    if ev.DupMap2? {
      HalfIsPending(st, ev.e);
    }
  }

  lemma StepIsolates(st: St, ev: Event, x: Page)
    requires Inv(st) && Enabled(st, ev) && Steady(st, ev)
    requires x in Abs(st) && Abs(st)[x].Private? && Actor(ev) != x.e
    ensures x in Abs(Step(st, ev)) && Abs(Step(st, ev))[x] == Abs(st)[x]
  {
    LabelAvoids(st, ev, x);
    StepRefines(st, ev);
    EagerIsolates(Abs(st), LabelOf(st, ev), x);
  }

  /** In the eager machine a step touches one page, or the cells of one shared object. */
  lemma EagerIsolates(m: Memory, l: Label, x: Page)
    requires x in m && m[x].Private?
    requires (l.Write? || l.New? || l.Drop? ==> l.x != x) && (l.Dup? ==> l.y != x)
    ensures x in EagerStep(m, l) && EagerStep(m, l)[x] == m[x]
  {
  }

  /** Isolation: whatever the other environments do - store, fork, fault, unmap, and stop half way
      through any of it - a private page keeps its contents. */
  lemma {:induction false} Isolation(st: St, evs: seq<Event>, x: Page)
    requires Inv(st) && Possible(st, evs)
    requires x in Abs(st) && Abs(st)[x].Private? && forall ev :: ev in evs ==> Actor(ev) != x.e
    ensures x in Abs(Run(st, evs)) && Abs(Run(st, evs))[x] == Abs(st)[x]
    decreases |evs|
  {
    if evs != [] {
      StepKeeps(st, evs[0]);
      StepIsolates(st, evs[0], x);
      Isolation(Step(st, evs[0]), evs[1..], x);
    }
  }

  // ----- The handler finishes -----

  function Handler(e: nat, v: nat, np: nat, zero: Content): seq<Event> {
    [Store(e, v, 0, 0), CowAlloc(e, np, zero), CowCopy(e), CowMap(e), CowUnmap(e)]
  }

  /** A store to a copy-on-write page runs cow_entry to its end: the page is then writable and
      owned, and no environment can tell the difference. */
  lemma FaultResolves(st: St, e: nat, v: nat, np: nat, zero: Content)
    requires Inv(st) && Enabled(st, Store(e, v, 0, 0)) && Unused(st, np)
    requires Cow(st.pt[Page(e, v)].flags) && !Writable(st.pt[Page(e, v)].flags)
    ensures var st' := Run(st, Handler(e, v, np, zero));
      && Possible(st, Handler(e, v, np, zero)) && Inv(st') && Abs(st') == Abs(st)
      && st'.pt == st.pt[Page(e, v) := Word(np, CopyPerm(st.pt[Page(e, v)].flags))]
      && st'.pc == st.pc && Runs(st', e)
  {
    RunCons(st, Store(e, v, 0, 0), AfterFault(e, np, zero));
    assert Handler(e, v, np, zero) == [Store(e, v, 0, 0)] + AfterFault(e, np, zero);
    var w := Page(e, v);
    var f := st.pt[w].flags;
    var s1 := Step(st, Store(e, v, 0, 0));
    StoreKeeps(st, e, v, 0, 0);
    StoreRefines(st, e, v, 0, 0);
    assert HandlerOk(s1, e, FaultOf(s1, e));
    HandlerEffect(s1, e, np, zero);
    HandlerRuns(s1, e, np, zero);
    PermBits(f);
  }

  function AfterFault(e: nat, np: nat, zero: Content): seq<Event> {
    [CowAlloc(e, np, zero), CowCopy(e), CowMap(e), CowUnmap(e)]
  }

  lemma RunCons(st: St, a: Event, rest: seq<Event>)
    ensures Run(st, [a] + rest) == Run(Step(st, a), rest)
    ensures Possible(st, [a] + rest) <==> Enabled(st, a) && Steady(st, a) && Possible(Step(st, a), rest)
  {
    assert ([a] + rest)[1..] == rest;
  }

  lemma AfterFaultRun(s1: St, e: nat, np: nat, zero: Content)
    ensures var s2 := Step(s1, CowAlloc(e, np, zero)); var s3 := Step(s2, CowCopy(e));
      var s4 := Step(s3, CowMap(e));
      && Run(s1, AfterFault(e, np, zero)) == Step(s4, CowUnmap(e))
      && (Possible(s1, AfterFault(e, np, zero)) <==>
           Enabled(s1, CowAlloc(e, np, zero)) && Enabled(s2, CowCopy(e)) && Enabled(s3, CowMap(e))
           && Enabled(s4, CowUnmap(e)))
  {
    var s2 := Step(s1, CowAlloc(e, np, zero));
    var s3 := Step(s2, CowCopy(e));
    var s4 := Step(s3, CowMap(e));
    RunCons(s4, CowUnmap(e), []);
    assert [CowUnmap(e)] + [] == [CowUnmap(e)];
    RunCons(s3, CowMap(e), [CowUnmap(e)]);
    assert [CowMap(e)] + [CowUnmap(e)] == [CowMap(e), CowUnmap(e)];
    RunCons(s2, CowCopy(e), [CowMap(e), CowUnmap(e)]);
    assert [CowCopy(e)] + [CowMap(e), CowUnmap(e)] == [CowCopy(e), CowMap(e), CowUnmap(e)];
    RunCons(s1, CowAlloc(e, np, zero), [CowCopy(e), CowMap(e), CowUnmap(e)]);
    assert [CowAlloc(e, np, zero)] + [CowCopy(e), CowMap(e), CowUnmap(e)] == AfterFault(e, np, zero);
  }

  /** cow_entry after the fault, step by step: what it leaves in the page table. */
  lemma HandlerEffect(s1: St, e: nat, np: nat, zero: Content)
    requires FaultOf(s1, e).Faulted? && Unused(s1, np) && Page(e, UCOW) !in s1.pt
    requires FaultOf(s1, e).v != UCOW
    ensures var h := FaultOf(s1, e); var s5 := Run(s1, AfterFault(e, np, zero));
      && Possible(s1, AfterFault(e, np, zero))
      && s5.pt == s1.pt[Page(e, h.v) := Word(np, h.perm)] && s5.pc == s1.pc
      && s5.runnable == s1.runnable && FaultOf(s5, e) == NoFault
  {
    AfterFaultRun(s1, e, np, zero);
  }

  lemma HandlerRuns(s1: St, e: nat, np: nat, zero: Content)
    requires Inv(s1) && FaultOf(s1, e).Faulted? && Unused(s1, np)
    ensures var s5 := Run(s1, AfterFault(e, np, zero)); Inv(s5) && Abs(s5) == Abs(s1)
  {
    AfterFaultRun(s1, e, np, zero);
    var s2 := Step(s1, CowAlloc(e, np, zero));
    CowAllocKeeps(s1, e, np, zero);
    CowAllocHidden(s1, e, np, zero);
    var s3 := Step(s2, CowCopy(e));
    CowCopyKeeps(s2, e);
    CowCopyHidden(s2, e);
    var s4 := Step(s3, CowMap(e));
    CowMapKeeps(s3, e);
    CowMapHidden(s3, e);
    CowUnmapKeeps(s4, e);
    CowUnmapHidden(s4, e);
  }

  // ----- The window in duppage -----

  /** duppage's first mem_map keeps the invariant if and only if the permissions it read are still
      those of the page. */
  lemma DupMap1Iff(st: St, e: nat)
    requires Inv(st) && Enabled(st, DupMap1(e))
    ensures Inv(Step(st, DupMap1(e))) <==> Steady(st, DupMap1(e))
  {
    if Steady(st, DupMap1(e)) {
      DupMap1Keeps(st, e);
    } else {
      var c := PcOf(st, e);
      assert ForkOk(st, e, c);
      PermBits(c.perm);
      var st' := Step(st, DupMap1(e));
      var x := Page(e, c.v);
      var y := Page(c.child, c.v);
      assert x in st'.pt && y in st'.pt && x != y;
      assert !Apart(st', x, y) || !FlagsOk(st');
    }
  }

  /** When they are not - the parent took a copy-on-write fault on that page in between - the next
      store of the parent to the page is visible in the child. */
  lemma StaleDupLeaks(st: St, e: nat, off: nat, val: nat)
    requires Inv(st) && Enabled(st, DupMap1(e)) && !Steady(st, DupMap1(e))
    ensures var c := PcOf(st, e); var y := Page(c.child, c.v);
      var s1 := Step(st, DupMap1(e)); var s2 := Step(s1, Store(e, c.v, off, val));
      && Enabled(s1, Store(e, c.v, off, val))
      && (!Library(c.perm) ==> Data(s2, Ppn(s2, y)) == Put(Data(s1, Ppn(s1, y)), off, val))
  {
    var c := PcOf(st, e);
    assert ForkOk(st, e, c);
    PermBits(c.perm);
  }

  /** And a run does lead there: from any state in which the parent has just read the permissions
      of a copy-on-write page, a store to that page and its handler. */
  lemma StaleDupReachable(st: St, e: nat, np: nat, zero: Content)
    requires Inv(st) && Enabled(st, DupMap1(e)) && Steady(st, DupMap1(e)) && Unused(st, np)
    requires Cow(PcOf(st, e).perm) && !Writable(PcOf(st, e).perm)
    ensures var evs := Handler(e, PcOf(st, e).v, np, zero);
      Possible(st, evs) && Inv(Run(st, evs)) && Enabled(Run(st, evs), DupMap1(e))
      && !Steady(Run(st, evs), DupMap1(e))
  {
    var c := PcOf(st, e);
    assert ForkOk(st, e, c);
    PermBits(c.perm);
    FaultResolves(st, e, c.v, np, zero);
  }
}
