/** Every system call keeps the lists, the ASIDs and the identifiers in order. */
module EnvInvariants {
  import opened Basics
  import opened Bitmaps
  import opened Envs

  /** All of the invariant but for who runs: what holds while schedule is being entered. */
  ghost predicate Orderly(k: Kernel) {
    Listed(k) && Blocked(k) && AsidsOk(k) && IdsOk(k)
  }

  lemma ScheduleKeeps(k: Kernel, giveUp: bool)
    requires Orderly(k) && (giveUp || RunsHead(k))
    ensures var o := Schedule(k, giveUp); o.Ret? ==> Inv(o.k)
  {
    var o := Schedule(k, giveUp);
    if o.Ret? {
      if IsRunnable(k, k.cur) {
        WithoutIs(k.sched, k.cur.value);
      }
      SameIdentity(k, o.k);
    }
  }

  lemma AllocAsid(k: Kernel, e: nat, v: Env)
    requires Inv(k) && e < NENV && k.envs[e].status == Free
    requires v.status != Free && v.asid < NASID && !Bit(k.asids, v.asid)
    ensures AsidsOk(k.(envs := k.envs[e := v], asids := Put(k.asids, v.asid, true)))
  {
    var u := k.(envs := k.envs[e := v], asids := Put(k.asids, v.asid, true));
    forall a: nat | a < NASID && Bit(u.asids, a)
      ensures exists f: nat :: f < NENV && u.envs[f].status != Free && u.envs[f].asid == a
    {
      if a == v.asid {
        assert u.envs[e].asid == a;
      } else {
        var f: nat :| f < NENV && k.envs[f].status != Free && k.envs[f].asid == a;
        assert u.envs[f] == k.envs[f];
      }
    }
  }

  lemma FreeAsid(k: Kernel, e: nat)
    requires Inv(k) && e < NENV && k.envs[e].status != Free
    ensures AsidsOk(EnvFree(k, e))
  {
    var u := EnvFree(k, e);
    forall a: nat | a < NASID && Bit(u.asids, a)
      ensures exists f: nat :: f < NENV && u.envs[f].status != Free && u.envs[f].asid == a
    {
      var f: nat :| f < NENV && k.envs[f].status != Free && k.envs[f].asid == a;
      assert u.envs[f] == k.envs[f];
    }
    forall f: nat | f < NENV && u.envs[f].status != Free ensures Bit(u.asids, u.envs[f].asid) {
      assert e != f ==> !SameAsid(k.envs[e], k.envs[f]);
    }
  }

  /** Changing the fields of an environment that the ASIDs and identifiers do not depend on. */
  lemma SameIdentity(k: Kernel, u: Kernel)
    requires |k.envs| == |u.envs| == NENV && AsidsOk(k) && IdsOk(k) && u.asids == k.asids && u.made == k.made
    requires forall e: nat :: e < NENV ==>
      && u.envs[e].id == k.envs[e].id && u.envs[e].asid == k.envs[e].asid
      && (u.envs[e].status == Free <==> k.envs[e].status == Free)
    ensures AsidsOk(u) && IdsOk(u)
  {
    forall a: nat | a < NASID && Bit(u.asids, a)
      ensures exists e: nat :: e < NENV && u.envs[e].status != Free && u.envs[e].asid == a
    {
      var e: nat :| e < NENV && k.envs[e].status != Free && k.envs[e].asid == a;
      assert u.envs[e].asid == a;
    }
    forall e: nat, f: nat | e < NENV && f < NENV && SameAsid(u.envs[e], u.envs[f]) ensures e == f {
      assert SameAsid(k.envs[e], k.envs[f]);
    }
  }

  // ----- The calls -----

  /** The identifier of a new environment; the others' stay. */
  lemma AllocId(k: Kernel, u: Kernel, e: nat)
    requires |k.envs| == |u.envs| == NENV && IdsOk(k) && u.made == k.made + 1 && e < NENV
    requires u.envs[e].id == IdOf(u.made, e) && forall f: nat :: f < NENV && f != e ==> u.envs[f] == k.envs[f]
    ensures IdsOk(u)
  {
    forall f: nat | f < NENV && u.envs[f].status != Free
      ensures exists i: nat :: 0 < i <= u.made && u.envs[f].id == IdOf(i, f)
    {
      if f != e {
        var i: nat :| 0 < i <= k.made && k.envs[f].id == IdOf(i, f);
        assert u.envs[f].id == IdOf(i, f);
      }
    }
  }

  /** The environment that env_alloc hands out, once the caller has filled it in. */
  function Born(k: Kernel, e: nat, a: nat, parent: nat, status: Status, pri: nat): Env
    requires e < |k.envs|
  {
    k.envs[e].(id := IdOf(k.made + 1, e), asid := a, parent := parent, status := status, pri := pri)
  }

  /** The first free environment comes alive, if runnable at the head of the list. */
  function Birth(k: Kernel, a: nat, parent: nat, status: Status, pri: nat): Kernel
    requires |k.asids| == NASID / 32 && a < NASID && k.free != [] && k.free[0] < |k.envs|
  {
    var e := k.free[0];
    k.(envs := k.envs[e := Born(k, e, a, parent, status, pri)], asids := Put(k.asids, a, true),
       free := k.free[1..], made := k.made + 1, sched := if status == Runnable then [e] + k.sched else k.sched)
  }

  lemma BirthKeeps(k: Kernel, a: nat, parent: nat, status: Status, pri: nat)
    requires Inv(k) && k.free != [] && FirstClear(k.asids, 0) == Some(a) && k.free[0] < NENV
    requires status != Free && (status == Runnable ==> k.cur.None?)
    ensures Inv(Birth(k, a, parent, status, pri))
  {
    var e := k.free[0];
    assert e in k.free;
    AllocAsid(k, e, Born(k, e, a, parent, status, pri));
    AllocId(k, Birth(k, a, parent, status, pri), e);
    assert forall x :: x in k.free[1..] <==> x in k.free && x != e;
  }

  /** There was no ASID, but the identifier was already made. */
  function NoAsid(k: Kernel): Kernel
    requires k.free != [] && k.free[0] < |k.envs|
  {
    k.(made := k.made + 1, envs := k.envs[k.free[0] := k.envs[k.free[0]].(id := IdOf(k.made + 1, k.free[0]))])
  }

  lemma NoAsidKeeps(k: Kernel)
    requires Inv(k) && k.free != [] && k.free[0] < NENV
    ensures Inv(NoAsid(k))
  {
    var e := k.free[0];
    assert e in k.free;
    var u := NoAsid(k);
    var w := u.(made := k.made);
    assert IdsOk(w) by {
      SameUnlessFree(k, w);
    }
    AllocId(k, u, e);
    SameUnlessFree(k, w);
  }

  /** Only free environments changed, and stayed free. */
  lemma SameUnlessFree(k: Kernel, u: Kernel)
    requires |k.envs| == |u.envs| == NENV && AsidsOk(k) && IdsOk(k) && u.asids == k.asids && u.made == k.made
    requires forall e: nat :: e < NENV ==>
      u.envs[e] == k.envs[e] || (u.envs[e].status == k.envs[e].status == Free && u.envs[e].asid == k.envs[e].asid)
    ensures AsidsOk(u) && IdsOk(u)
  {
    forall a: nat | a < NASID && Bit(u.asids, a)
      ensures exists e: nat :: e < NENV && u.envs[e].status != Free && u.envs[e].asid == a
    {
      var e: nat :| e < NENV && k.envs[e].status != Free && k.envs[e].asid == a;
      assert u.envs[e].asid == a;
    }
  }

  lemma FreeInRange(k: Kernel)
    requires Listed(k) && k.free != []
    ensures k.free[0] < NENV
  {
    assert k.free[0] in k.free;
  }

  lemma ExoforkIs(k: Kernel)
    requires Inv(k) && k.cur.Some? && k.free != [] && k.free[0] < NENV
    ensures var c := k.envs[k.cur.value];
      Exofork(k).k == match FirstClear(k.asids, 0)
        case None => NoAsid(k)
        case Some(a) => Birth(k, a, c.id, NotRunnable, c.pri)
  {
  }

  lemma ExoforkKeeps(k: Kernel)
    requires Inv(k) && k.cur.Some?
    ensures Inv(Exofork(k).k)
  {
    if k.free != [] {
      FreeInRange(k);
      ExoforkIs(k);
      if FirstClear(k.asids, 0).None? {
        NoAsidKeeps(k);
      } else {
        var c := k.envs[k.cur.value];
        BirthKeeps(k, FirstClear(k.asids, 0).value, c.id, NotRunnable, c.pri);
      }
    }
  }

  lemma CreateIs(k: Kernel, pri: nat)
    requires Inv(k) && EnvCreate(k, pri).Ret?
    ensures k.free != [] && k.free[0] < NENV && FirstClear(k.asids, 0).Some?
    ensures EnvCreate(k, pri).k == Birth(k, FirstClear(k.asids, 0).value, 0, Runnable, pri)
  {
    assert k.free != [] ==> k.free[0] in k.free;
  }

  lemma CreateKeeps(k: Kernel, pri: nat)
    requires Inv(k) && k.cur.None? && EnvCreate(k, pri).Ret?
    ensures Inv(EnvCreate(k, pri).k)
  {
    CreateIs(k, pri);
    BirthKeeps(k, FirstClear(k.asids, 0).value, 0, Runnable, pri);
  }

  lemma SetStatusKeeps(k: Kernel, e: nat, run: bool)
    requires Inv(k) && e < NENV && k.envs[e].status != Free && (run ==> !k.envs[e].recving)
    ensures var u := SetStatus(k, e, run); Orderly(u) && (k.cur != Some(e) ==> RunsHead(u))
  {
    WithoutIs(k.sched, e);
    SameIdentity(k, SetStatus(k, e, run));
  }

  lemma KillKeeps(k: Kernel, e: nat)
    requires Inv(k) && e < NENV && k.envs[e].status == Runnable
    ensures Orderly(EnvFree(k, e)) && (k.cur != Some(e) ==> RunsHead(EnvFree(k, e)))
  {
    WithoutIs(k.sched, e);
    FreeAsid(k, e);
    var u := EnvFree(k, e);
    forall f: nat | f < NENV && u.envs[f].status != Free
      ensures exists i: nat :: 0 < i <= u.made && u.envs[f].id == IdOf(i, f)
    {
      var i: nat :| 0 < i <= k.made && k.envs[f].id == IdOf(i, f);
      assert u.envs[f].id == IdOf(i, f);
    }
    assert forall x :: x in [e] + k.free <==> x == e || x in k.free;
  }

  lemma RecvKeeps(k: Kernel, dstva: nat)
    requires Inv(k) && k.cur.Some?
    ensures var o := IpcRecv(k, dstva); o.Ret? ==> Inv(o.k)
  {
    var c := k.cur.value;
    assert c in k.sched;
    WithoutIs(k.sched, c);
    SameIdentity(k, Block(k, dstva));
    ScheduleKeeps(Block(k, dstva), true);
  }

  lemma SendKeeps(k: Kernel, envid: nat, value: nat, srcva: nat, perm: bv12, page: Code)
    requires Inv(k) && k.cur.Some?
    ensures Inv(IpcTrySend(k, envid, value, srcva, perm, page).k)
  {
    assert k.cur.value in k.sched;
    SameIdentity(k, IpcTrySend(k, envid, value, srcva, perm, page).k);
  }

  lemma SetKeeps(k: Kernel, e: nat, run: bool)
    requires Inv(k) && k.cur.Some? && e < NENV && k.envs[e].status != Free && (run ==> !k.envs[e].recving)
    ensures var u := SetStatus(k, e, run); var o := Schedule(u, true);
      if k.cur == Some(e) then o.Ret? ==> Inv(o.k) else Inv(u)
  {
    SetStatusKeeps(k, e, run);
    ScheduleKeeps(SetStatus(k, e, run), true);
  }

  lemma StatusKeeps(k: Kernel, envid: nat, status: nat)
    requires Inv(k) && Allowed(k, Status(envid, status))
    ensures var o := SetEnvStatus(k, envid, status); o.Ret? ==> Inv(o.k)
  {
    var r := Envid2env(k, envid, true);
    if r.Ok? && (status == ENV_RUNNABLE || status == ENV_NOT_RUNNABLE) {
      assert k.cur.value in k.sched;
      SetKeeps(k, r.value, status == ENV_RUNNABLE);
    }
  }

  lemma DestroyKeeps(k: Kernel, envid: nat)
    requires Inv(k) && Allowed(k, Kill(envid))
    ensures var o := Destroy(k, envid); o.Ret? ==> Inv(o.k)
  {
    var r := Envid2env(k, envid, true);
    if r.Ok? {
      KillKeeps(k, r.value);
      ScheduleKeeps(EnvFree(k, r.value).(cur := None), true);
    }
  }

  /** Every step that does not panic keeps the invariant. */
  lemma StepKeeps(k: Kernel, op: Op)
    requires Inv(k) && Allowed(k, op)
    ensures var o := Step(k, op); o.Ret? ==> Inv(o.k)
  {
    match op
    case Create(pri) => if EnvCreate(k, pri).Ret? { CreateKeeps(k, pri); }
    case Tick => ScheduleKeeps(k, false);
    case Yield => ScheduleKeeps(k, true);
    case Fork => ExoforkKeeps(k);
    case Status(envid, status) => StatusKeeps(k, envid, status);
    case Kill(envid) => DestroyKeeps(k, envid);
    case Recv(dstva) => RecvKeeps(k, dstva);
    case Send(envid, value, srcva, perm, page) => SendKeeps(k, envid, value, srcva, perm, page);
  }
}
