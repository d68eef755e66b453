/** What the callers of the environment calls rely on (kern/env.c, kern/sched.c, kern/syscall_all.c):
    whom an identifier names, what the call answers, and what it has done when it does. */
module EnvCalls {
  import opened Basics
  import opened Bitmaps
  import opened Envs
  import opened EnvInvariants
  import opened EnvRuns
  import Mmu

  /** `envid` names environment `e`: 0 the caller, any other number the live one that has it. */
  ghost predicate Names(k: Kernel, envid: nat, e: nat)
    requires |k.envs| == NENV
  {
    e < NENV && if envid == 0 then k.cur == Some(e) else k.envs[e].status != Free && k.envs[e].id == envid
  }

  /** And the caller may handle it, being itself or a child. */
  ghost predicate Handles(k: Kernel, envid: nat, e: nat)
    requires |k.envs| == NENV && k.cur.Some? && k.cur.value < NENV
  {
    Names(k, envid, e) && (k.cur == Some(e) || k.envs[e].parent == k.envs[k.cur.value].id)
  }

  lemma EnvidNames(k: Kernel, envid: nat, check: bool, e: nat)
    requires Inv(k) && k.cur.Some?
    ensures Envid2env(k, envid, check) == Ok(e) <==> if check then Handles(k, envid, e) else Names(k, envid, e)
  {
    if envid != 0 {
      EnvidIff(k, envid, check, e);
    }
  }

  lemma EnvidFails(k: Kernel, envid: nat, check: bool)
    requires Inv(k) && k.cur.Some?
    ensures var r := Envid2env(k, envid, check);
      && (r.Err? <==> !exists e: nat :: if check then Handles(k, envid, e) else Names(k, envid, e))
      && (r.Err? ==> r == Err(E_BAD_ENV))
  {
    var r := Envid2env(k, envid, check);
    if r.Ok? {
      EnvidNames(k, envid, check, r.value);
    } else {
      forall e: nat ensures !if check then Handles(k, envid, e) else Names(k, envid, e) {
        EnvidNames(k, envid, check, e);
      }
    }
  }

  /** Only environment `e` and who is listed may have changed. */
  ghost predicate OnlyOf(k: Kernel, u: Kernel, e: nat) {
    && u.asids == k.asids && u.made == k.made && |u.envs| == |k.envs|
    && forall f: nat :: f < |k.envs| && f != e ==> u.envs[f] == k.envs[f]
  }

  // ----- The scheduler -----

  /** The head of the list runs, with its priority in slices. */
  ghost predicate Picks(k: Kernel, o: Outcome, sched: seq<nat>)
    requires sched != [] && sched[0] < |k.envs|
  {
    o == Ret(k.(sched := sched, cur := Some(sched[0]), count := k.envs[sched[0]].pri), Ok(0))
  }

  /** Giving up, or the end of the last slice, puts the one that ran behind all others. */
  lemma YieldRotates(k: Kernel, giveUp: bool)
    requires Inv(k) && k.cur.Some? && (giveUp || k.count == 1)
    ensures var sched := k.sched[1..] + [k.cur.value];
      sched[0] < NENV && Picks(k, Schedule(k, giveUp), sched)
  {
    var c := k.cur.value;
    assert c in k.sched;
    assert Without(k.sched, c) == k.sched[1..];
    var sched := k.sched[1..] + [c];
    assert sched[0] in k.sched;
  }

  /** In any other slice it goes on. */
  lemma TickGoesOn(k: Kernel)
    requires Inv(k) && k.cur.Some? && k.count != 1
    ensures Schedule(k, false) == Ret(k.(count := k.count - 1), Ok(0))
  {
    assert k.cur.value in k.sched;
  }

  /** Where the one that ran is no longer runnable, or none ran, the list stays as it is. */
  lemma NextRuns(k: Kernel)
    requires Listed(k) && !IsRunnable(k, k.cur) && k.sched != []
    ensures k.sched[0] < NENV && forall giveUp :: Picks(k, Schedule(k, giveUp), k.sched)
  {
    assert k.sched[0] in k.sched;
  }

  // ----- sys_set_env_status -----

  lemma StatusFails(k: Kernel, envid: nat, status: nat)
    requires Inv(k) && k.cur.Some?
    ensures var o := SetEnvStatus(k, envid, status); var known := status == ENV_RUNNABLE || status == ENV_NOT_RUNNABLE;
      && (!known ==> o == Ret(k, Err(E_INVAL)))
      && (known && !(exists e: nat :: Handles(k, envid, e)) ==> o == Ret(k, Err(E_BAD_ENV)))
  {
    EnvidFails(k, envid, true);
  }

  /** Of another environment: it has the status, is listed iff runnable, and comes behind all others if it
      was not listed before. */
  lemma StatusOfOther(k: Kernel, envid: nat, status: nat, e: nat)
    requires Inv(k) && k.cur.Some? && Handles(k, envid, e) && k.cur != Some(e)
    requires status == ENV_RUNNABLE || status == ENV_NOT_RUNNABLE
    ensures SetEnvStatus(k, envid, status).Ret?
    ensures var Ret(u, r) := SetEnvStatus(k, envid, status);
      && r == Ok(0) && OnlyOf(k, u, e) && u.cur == k.cur && u.free == k.free && u.count == k.count
      && u.envs[e] == k.envs[e].(status := if status == ENV_RUNNABLE then Runnable else NotRunnable)
      && (forall f :: f in u.sched <==> if f == e then status == ENV_RUNNABLE else f in k.sched)
      && (status == ENV_RUNNABLE ==> u.sched == if e in k.sched then k.sched else k.sched + [e])
      && (status == ENV_NOT_RUNNABLE && e in k.sched ==>
           exists p, q :: k.sched == p + [e] + q && u.sched == p + q)
  {
    EnvidNames(k, envid, true, e);
    WithoutIs(k.sched, e);
    if e in k.sched {
      CutOut(k.sched, e);
    }
  }

  lemma CutOut(s: seq<nat>, e: nat)
    requires e in s
    ensures exists p, q :: s == p + [e] + q && Without(s, e) == p + q
  {
    var i := Index(s, e);
    assert s == s[..i] + [e] + s[i + 1..];
  }

  /** Of the caller itself: it yields, or leaves the list to the next. */
  lemma StatusOfSelf(k: Kernel, envid: nat, status: nat)
    requires Inv(k) && k.cur.Some? && (envid == 0 || envid == k.envs[k.cur.value].id)
    requires status == ENV_RUNNABLE || status == ENV_NOT_RUNNABLE
    ensures var c := k.cur.value; var o := SetEnvStatus(k, envid, status);
      if status == ENV_RUNNABLE then o == Schedule(k, true)
      else if |k.sched| == 1 then o == Panic
      else k.sched[1] < NENV
           && Picks(k.(envs := k.envs[c := k.envs[c].(status := NotRunnable)]), o, k.sched[1..])
  {
    var c := k.cur.value;
    assert c in k.sched;
    EnvidNames(k, envid, true, c);
    assert Without(k.sched, c) == k.sched[1..];
    if status == ENV_RUNNABLE {
      assert SetStatus(k, c, true) == k by {
        assert k.envs[c := k.envs[c].(status := Runnable)] == k.envs;
      }
    } else {
      SetStatusKeeps(k, c, false);
      if |k.sched| > 1 {
        assert k.sched[1] in k.sched;
        NextRuns(SetStatus(k, c, false));
      }
    }
  }

  // ----- sys_exofork -----

  /** The identifier answered names the new environment: the first free one, a child of the caller with its
      priority, not runnable yet, and with an ASID that was in use by none. */
  lemma ForkAnswers(k: Kernel)
    requires Inv(k) && k.cur.Some?
    ensures Exofork(k).Ret?
    ensures var Ret(u, r) := Exofork(k);
      && (r.Ok? <==> k.free != [] && exists a: nat :: a < NASID && !Bit(k.asids, a))
      && (r.Err? ==> r == Err(E_NO_FREE_ENV) && u.free == k.free && u.sched == k.sched && u.asids == k.asids)
      && (r.Ok? ==> k.free[0] < NENV && Forked(k, u, k.free[0], r.value))
  {
    if k.free != [] {
      FreeInRange(k);
      ExoforkIs(k);
      if FirstClear(k.asids, 0).Some? {
        BirthForks(k);
      }
    }
  }

  lemma BirthForks(k: Kernel)
    requires Inv(k) && k.cur.Some? && k.free != [] && k.free[0] < NENV && FirstClear(k.asids, 0).Some?
    ensures var c := k.envs[k.cur.value]; var e := k.free[0];
      Forked(k, Birth(k, FirstClear(k.asids, 0).value, c.id, NotRunnable, c.pri), e, IdOf(k.made + 1, e))
  {
    assert k.free[0] in k.free;
  }

  ghost predicate Forked(k: Kernel, u: Kernel, e: nat, id: nat)
    requires k.cur.Some? && k.cur.value < |k.envs|
  {
    var c := k.envs[k.cur.value];
    && |u.envs| == |k.envs| == NENV && e < NENV && k.envs[e].status == Free
    && u.envs[e].id == id && (id != 0 ==> Names(u, id, e))
    && u.envs[e].status == NotRunnable && u.envs[e].parent == c.id && u.envs[e].pri == c.pri
    && u.envs[e].asid < NASID && !Bit(k.asids, u.envs[e].asid)
    && (forall a: nat :: a < NASID ==> (Bit(u.asids, a) <==> Bit(k.asids, a) || a == u.envs[e].asid))
    && (forall f: nat :: f < NENV && f != e ==> u.envs[f] == k.envs[f])
    && k.free == [e] + u.free && u.sched == k.sched && u.cur == k.cur && u.count == k.count
  }

  // ----- sys_env_destroy -----

  lemma KillFails(k: Kernel, envid: nat)
    requires Inv(k) && k.cur.Some?
    ensures !(exists e: nat :: Handles(k, envid, e)) ==> Destroy(k, envid) == Ret(k, Err(E_BAD_ENV))
  {
    EnvidFails(k, envid, true);
  }

  /** What is left of environment `e`: it is the first to be reused, and its ASID may be, too. */
  ghost predicate Gone(k: Kernel, u: Kernel, e: nat)
    requires e < |k.envs|
  {
    && u.envs == k.envs[e := k.envs[e].(status := Free)] && u.free == [e] + k.free && u.made == k.made
    && (forall a: nat :: Bit(u.asids, a) <==> Bit(k.asids, a) && a != k.envs[e].asid)
    && e !in u.sched && forall f :: f != e ==> (f in u.sched <==> f in k.sched)
  }

  lemma FreedIsGone(k: Kernel, e: nat)
    requires Inv(k) && e < NENV
    ensures Gone(k, EnvFree(k, e), e)
  {
    WithoutIs(k.sched, e);
  }

  lemma KillOther(k: Kernel, envid: nat, e: nat)
    requires Inv(k) && k.cur.Some? && Handles(k, envid, e) && k.cur != Some(e)
    ensures Destroy(k, envid).Ret?
    ensures var Ret(u, r) := Destroy(k, envid);
      r == Ok(0) && Gone(k, u, e) && u.cur == k.cur && u.count == k.count
  {
    EnvidNames(k, envid, true, e);
    FreedIsGone(k, e);
  }

  lemma KillSelf(k: Kernel, envid: nat)
    requires Inv(k) && k.cur.Some? && (envid == 0 || envid == k.envs[k.cur.value].id) && |k.sched| > 1
    ensures Destroy(k, envid).Ret?
    ensures var u := Destroy(k, envid).k;
      Gone(k, u, k.cur.value) && u.sched == k.sched[1..] && u.cur == Some(k.sched[1])
      && k.sched[1] < NENV && u.count == k.envs[k.sched[1]].pri
  {
    var c := k.cur.value;
    assert c in k.sched && k.sched[1] in k.sched;
    EnvidNames(k, envid, true, c);
    assert Without(k.sched, c) == k.sched[1..];
    FreedIsGone(k, c);
    KillKeeps(k, c);
    var w := EnvFree(k, c).(cur := None);
    NextRuns(w);
    assert Destroy(k, envid) == Schedule(w, true);
  }

  // ----- sys_ipc_recv -----

  lemma RecvAnswers(k: Kernel, dstva: nat)
    requires Inv(k) && k.cur.Some?
    ensures var c := k.cur.value; var o := IpcRecv(k, dstva);
      if dstva != 0 && !(UTEMP <= dstva < UTOP) then o == Ret(k, Err(E_INVAL))
      else if |k.sched| == 1 then o == Panic
      else k.sched[1] < NENV
           && Picks(k.(envs := k.envs[c := k.envs[c].(recving := true, dstva := dstva, status := NotRunnable)]),
                    o, k.sched[1..])
  {
    var c := k.cur.value;
    assert c in k.sched;
    assert Without(k.sched, c) == k.sched[1..];
    var u := Block(k, dstva);
    if |k.sched| > 1 {
      assert k.sched[1] in k.sched;
      assert k.sched[1] != c;
    }
  }

  // ----- sys_ipc_try_send -----

  /** What a send answers, where `page` is what the mapping of a page comes to: an address error first, then
      an unknown receiver, then one that is not waiting; only then has the message been delivered. */
  lemma SendAnswers(k: Kernel, envid: nat, value: nat, srcva: nat, perm: bv12, page: Code)
    requires Inv(k) && k.cur.Some? && page != Err(E_BAD_ENV) && page != Err(E_IPC_NOT_RECV)
    ensures IpcTrySend(k, envid, value, srcva, perm, page).Ret?
    ensures var Ret(u, r) := IpcTrySend(k, envid, value, srcva, perm, page);
      var here := srcva == 0 || UTEMP <= srcva < UTOP;
      && (!here ==> u == k && r == Err(E_INVAL))
      && (r == Err(E_BAD_ENV) <==> here && !exists e: nat :: Names(k, envid, e))
      && (r == Err(E_IPC_NOT_RECV) <==> here && exists e: nat :: Names(k, envid, e) && !k.envs[e].recving)
      && (r == Err(E_BAD_ENV) || r == Err(E_IPC_NOT_RECV) ==> u == k)
      && (r.Ok? <==> here && (srcva == 0 || page.Ok?) && exists e: nat :: Names(k, envid, e) && k.envs[e].recving)
  {
    EnvidFails(k, envid, false);
    var t := Envid2env(k, envid, false);
    if t.Ok? {
      EnvidNames(k, envid, false, t.value);
      forall e: nat | Names(k, envid, e) ensures e == t.value {
        EnvidNames(k, envid, false, e);
      }
    }
  }

  /** And then the receiver has it, is runnable, and is behind all others in the list. */
  lemma SendDelivers(k: Kernel, envid: nat, value: nat, srcva: nat, perm: bv12, page: Code, e: nat)
    requires Inv(k) && k.cur.Some? && Names(k, envid, e) && k.envs[e].recving
    requires srcva == 0 || UTEMP <= srcva < UTOP
    ensures IpcTrySend(k, envid, value, srcva, perm, page).Ret?
    ensures var Ret(u, r) := IpcTrySend(k, envid, value, srcva, perm, page);
      && r == (if srcva == 0 then Ok(0) else page) && OnlyOf(k, u, e)
      && Has(u.envs[e], value, k.envs[k.cur.value].id, perm)
      && u.sched == k.sched + [e] && u.cur == k.cur && u.free == k.free && u.count == k.count
  {
    EnvidNames(k, envid, false, e);
  }

  /** The message is there, and its receiver no longer waits. */
  predicate Has(e: Env, value: nat, from: nat, perm: bv12) {
    && e.value == value && e.from == from && e.perm == perm | Mmu.PTE_V
    && !e.recving && e.status == Runnable
  }
}
