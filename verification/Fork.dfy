/** fork and duppage (user/lib/fork.c) as the loop they are, run without interruption. */
module Fork {
  import opened Mmu
  import opened CowFork
  import opened CowRefinement

  /** Memory after the pages below `v` have been granted: the child sees what the parent sees, and
      every other environment, the parent included, sees what it saw. */
  ghost predicate Granted(m: Memory, m': Memory, e: nat, child: nat, v: nat) {
    && (forall x: Page :: x.e != child ==> (x in m' <==> x in m) && (x in m ==> m'[x] == m[x]))
    && (forall w: nat :: w < v ==> (Page(child, w) in m' <==> Page(e, w) in m))
    && (forall w: nat :: w < v && Page(e, w) in m ==> Page(child, w) in m' && m'[Page(child, w)] == m[Page(e, w)])
    && (forall w: nat :: v <= w ==> Page(child, w) !in m')
  }

  /** The child has page (i, j) iff the parent had, unless it is one of the two at the top of the stack; and
      then it reads the same. */
  ghost predicate Inherits(m: Memory, m': Memory, e: nat, child: nat, i: nat, j: nat) {
    var v := Vpn(i, j);
    && (Page(child, v) in m' <==> Page(e, v) in m && !(i == PDX_UTOP - 1 && j >= WORDS - 2))
    && (Page(child, v) in m' ==> m'[Page(child, v)] == m[Page(e, v)])
  }

  class Machine {
    var st: St

    /** One system call, fault step or store. */
    method Do(ev: Event)
      requires Inv(st) && Enabled(st, ev) && Steady(st, ev)
      modifies this
      ensures st == Step(old(st), ev)
      ensures Inv(st) && Abs(st) == EagerStep(old(Abs(st)), LabelOf(old(st), ev))
    {
      StepKeeps(st, ev);
      StepRefines(st, ev);
      st := Step(st, ev);
    }

    /** duppage: from the permissions read to its return the child gains exactly a copy of the page. */
    method Duppage(e: nat, ghost child: nat, ghost v: nat)
      requires Inv(st) && Enabled(st, DupMap1(e)) && Steady(st, DupMap1(e))
      requires PcOf(st, e).child == child && PcOf(st, e).v == v
      modifies this
      ensures Inv(st) && Runs(st, e) && PcOf(st, e) == Scan(child, v + 1)
      ensures Page(e, v) in old(Abs(st)) && child != e
      ensures Abs(st) == old(Abs(st))[Page(child, v) := old(Abs(st))[Page(e, v)]]
      ensures st.known == old(st.known) && st.runnable == old(st.runnable)
    {
      assert ForkOk(st, e, PcOf(st, e));
      NotPending(st, Page(e, v));
      Do(DupMap1(e));
      if PcOf(st, e).Half? {
        Do(DupMap2(e));
      }
    }

    /** One round of the loop of fork. */
    method ForkPage(e: nat, child: nat, v: nat, ghost m: Memory)
      requires Inv(st) && Runs(st, e) && PcOf(st, e) == Scan(child, v) && v < USTACK_PAGE
      requires Granted(m, Abs(st), e, child, v)
      modifies this
      ensures Inv(st) && Runs(st, e) && PcOf(st, e) == Scan(child, v + 1)
      ensures Granted(m, Abs(st), e, child, v + 1)
    {
      ghost var s := st;
      assert ForkOk(s, e, PcOf(s, e));
      NotPending(s, Page(e, v));
      assert FaultOf(s, e).NoFault? && Page(e, UCOW) !in s.pt;
      Do(DupRead(e));
      assert Abs(st) == Abs(s);
      if PcOf(st, e).Got? {
        Duppage(e, child, v);
        GrantOne(m, Abs(s), e, child, v);
      }
    }

    /** fork: the child starts with exactly the parent's pages below USTACKTOP, and nobody's view
        of memory changes. */
    method Fork(e: nat, child: nat)
      requires Inv(st) && Enabled(st, Exofork(e, child))
      modifies this
      ensures Inv(st) && child in st.runnable && PcOf(st, e).Idle?
      ensures Granted(old(Abs(st)), Abs(st), e, child, USTACK_PAGE)
      ensures forall i: nat, j: nat :: IsUser(i, j) ==> Inherits(old(Abs(st)), Abs(st), e, child, i, j)
    {
      ghost var m := Abs(st);
      Do(Exofork(e, child));
      var v := 0;
      while v < USTACK_PAGE
        invariant Inv(st) && Runs(st, e) && v <= USTACK_PAGE && PcOf(st, e) == Scan(child, v)
        invariant Granted(m, Abs(st), e, child, v)
      {
        ForkPage(e, child, v, m);
        v := v + 1;
      }
      Do(DupRead(e));
      forall i: nat, j: nat | IsUser(i, j) ensures Inherits(m, Abs(st), e, child, i, j) {
        InheritedIff(i, j);
      }
    }
  }

  lemma GrantOne(m: Memory, m1: Memory, e: nat, child: nat, v: nat)
    requires Granted(m, m1, e, child, v) && Page(e, v) in m1 && child != e
    ensures Granted(m, m1[Page(child, v) := m1[Page(e, v)]], e, child, v + 1)
  {
  }
}
