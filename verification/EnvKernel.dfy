/** kern/env.c, kern/sched.c and the environment calls of kern/syscall_all.c as they run: one array of
    environments and one of ASID words, two lists and three variables, updated in place. */
module EnvKernel {
  import opened Basics
  import opened Bitmaps
  import opened Envs
  import opened EnvRuns
  import Mmu

  class System {
    const envs: array<Env>
    const asids: array<Word32>
    var free: seq<nat>
    var sched: seq<nat>
    var cur: Option<nat>
    var count: int
    var made: nat

    ghost function Snapshot(): Kernel
      reads this, envs, asids
    {
      Kernel(envs[..], free, sched, asids[..], cur, count, made)
    }

    /** The entry ended as the specification says; in a panic nothing is promised. */
    ghost predicate Ended(o: Outcome, r: Option<Code>)
      reads this, envs, asids
    {
      match o
      case Panic => r == None
      case Ret(k, c) => r == Some(c) && Snapshot() == k
    }

    /** env_init: from the last environment to the first, each at the head of the free list. */
    constructor ()
      ensures Snapshot() == Initial() && fresh(envs) && fresh(asids)
    {
      var none := Env(0, 0, 0, Free, 0, 0, 0, 0, false, 0);
      var zeros: Word32 := seq(32, _ => false);
      envs := new Env[NENV](_ => none);
      asids := new Word32[NASID / 32](_ => zeros);
      sched, cur, count, made := [], None, 0, 0;
      var list: seq<nat> := [];
      var i := NENV;
      while i > 0
        invariant 0 <= i <= NENV && list == Upto(i, NENV)
      {
        i := i - 1;
        list := [i] + list;
      }
      free := list;
      new;
      assert envs[..] == Initial().envs;
      assert asids[..] == Initial().asids;
    }

    /** asid_alloc. */
    method AsidAlloc() returns (r: Option<nat>)
      requires asids.Length == NASID / 32
      modifies asids
      ensures r == FirstClear(old(asids[..]), 0)
      ensures asids[..] == if r.Some? then Put(old(asids[..]), r.value, true) else old(asids[..])
    {
      var i := 0;
      while i < NASID
        invariant i <= NASID && asids[..] == old(asids[..])
        invariant FirstClear(asids[..], 0) == FirstClear(asids[..], i)
      {
        if !asids[i / 32][i % 32] {
          asids[i / 32] := asids[i / 32][i % 32 := true];
          return Some(i);
        }
        i := i + 1;
      }
      return None;
    }

    /** asid_free. */
    method AsidFree(i: nat)
      requires asids.Length == NASID / 32 && i < NASID
      modifies asids
      ensures asids[..] == Put(old(asids[..]), i, false)
    {
      asids[i / 32] := asids[i / 32][i % 32 := false];
    }

    method Envid2envOf(envid: nat, checkperm: bool) returns (r: Code)
      requires Sane(Snapshot()) && cur.Some?
      ensures r == Envid2env(Snapshot(), envid, checkperm)
    {
      if envid == 0 {
        return Ok(cur.value);
      }
      var e := envid % NENV;
      if envs[e].status == Free || envs[e].id != envid {
        return Err(E_BAD_ENV);
      }
      if checkperm && e != cur.value && envs[e].parent != envs[cur.value].id {
        return Err(E_BAD_ENV);
      }
      return Ok(e);
    }

    method Alloc(parent: nat) returns (r: Code)
      requires Sane(Snapshot())
      modifies this`free, this`made, envs, asids
      ensures (Snapshot(), r) == EnvAlloc(old(Snapshot()), parent)
    {
      if free == [] {
        return Err(E_NO_FREE_ENV);
      }
      var e := free[0];
      assert e in free;
      made := made + 1;
      envs[e] := envs[e].(id := IdOf(made, e));
      var a := AsidAlloc();
      if a.None? {
        return Err(E_NO_FREE_ENV);
      }
      envs[e] := envs[e].(asid := a.value, parent := parent);
      free := free[1..];
      return Ok(e);
    }

    method Run(e: nat) returns (ok: bool)
      modifies this`cur
      ensures Ended(EnvRun(old(Snapshot()), e), if ok then Some(Ok(0)) else None)
    {
      ok := e < envs.Length && envs[e].status == Runnable;
      if ok {
        cur := Some(e);
      }
    }

    method DoSchedule(giveUp: bool) returns (ok: bool)
      requires Sane(Snapshot())
      modifies this`cur, this`count, this`sched
      ensures Ended(Schedule(old(Snapshot()), giveUp), if ok then Some(Ok(0)) else None)
    {
      count := count - 1;
      var runnable := cur.Some? && envs[cur.value].status == Runnable;
      if giveUp || count == 0 || !runnable {
        if runnable {
          sched := Without(sched, cur.value);
          sched := sched + [cur.value];
        }
        if sched == [] || sched[0] >= envs.Length {
          return false;
        }
        count := envs[sched[0]].pri;
        ok := Run(sched[0]);
      } else {
        ok := Run(cur.value);
      }
    }

    method SysExofork() returns (r: Option<Code>)
      requires Sane(Snapshot()) && cur.Some?
      modifies this`free, this`made, envs, asids
      ensures Ended(Exofork(old(Snapshot())), r)
    {
      var c := envs[cur.value];
      var a := Alloc(c.id);
      if a.Err? {
        return Some(a);
      }
      envs[a.value] := envs[a.value].(status := NotRunnable, pri := c.pri);
      return Some(Ok(envs[a.value].id));
    }

    method SysSetEnvStatus(envid: nat, status: nat) returns (r: Option<Code>)
      requires Sane(Snapshot()) && cur.Some?
      modifies this`cur, this`count, this`sched, envs
      ensures Ended(SetEnvStatus(old(Snapshot()), envid, status), r)
    {
      if status != ENV_RUNNABLE && status != ENV_NOT_RUNNABLE {
        return Some(Err(E_INVAL));
      }
      var t := Envid2envOf(envid, true);
      if t.Err? {
        return Some(t);
      }
      var e := t.value;
      var run := status == ENV_RUNNABLE;
      if run && envs[e].status != Runnable {
        sched := sched + [e];
      } else if !run && envs[e].status != NotRunnable {
        sched := Without(sched, e);
      }
      envs[e] := envs[e].(status := if run then Runnable else NotRunnable);
      assert Snapshot() == SetStatus(old(Snapshot()), e, run);
      if Some(e) == cur {
        assert forall x :: x in sched ==> x in old(sched) || x == e;
        var ok := DoSchedule(true);
        return if ok then Some(Ok(0)) else None;
      }
      return Some(Ok(0));
    }

    method SysEnvDestroy(envid: nat) returns (r: Option<Code>)
      requires Sane(Snapshot()) && cur.Some? && forall e :: e in envs[..] ==> e.asid < NASID
      modifies this`cur, this`count, this`sched, this`free, envs, asids
      ensures Ended(Destroy(old(Snapshot()), envid), r)
    {
      var t := Envid2envOf(envid, true);
      if t.Err? {
        return Some(t);
      }
      var e := t.value;
      assert envs[e] in envs[..];
      AsidFree(envs[e].asid);
      envs[e] := envs[e].(status := Free);
      free := [e] + free;
      sched := Without(sched, e);
      assert Snapshot() == EnvFree(old(Snapshot()), e);
      assert forall x :: x in sched ==> x in old(sched);
      if cur == Some(e) {
        cur := None;
        var ok := DoSchedule(true);
        return if ok then Some(Ok(0)) else None;
      }
      return Some(Ok(0));
    }

    method SysIpcRecv(dstva: nat) returns (r: Option<Code>)
      requires Sane(Snapshot()) && cur.Some?
      modifies this`cur, this`count, this`sched, envs
      ensures Ended(IpcRecv(old(Snapshot()), dstva), r)
    {
      if dstva != 0 && Illegal(dstva) {
        return Some(Err(E_INVAL));
      }
      WaitForMessage(dstva);
      var ok := DoSchedule(true);
      return if ok then Some(Ok(0)) else None;
    }

    /** Steps 2 to 4 of sys_ipc_recv. */
    method WaitForMessage(dstva: nat)
      requires Sane(Snapshot()) && cur.Some?
      modifies this`sched, envs
      ensures Snapshot() == Block(old(Snapshot()), dstva) && Sane(Snapshot())
    {
      var c := cur.value;
      envs[c] := envs[c].(recving := true);
      envs[c] := envs[c].(dstva := dstva);
      envs[c] := envs[c].(status := NotRunnable);
      sched := Without(sched, c);
      assert forall x :: x in sched ==> x in old(sched);
    }

    method SysIpcTrySend(envid: nat, value: nat, srcva: nat, perm: bv12, page: Code) returns (r: Option<Code>)
      requires Sane(Snapshot()) && cur.Some?
      modifies this`sched, envs
      ensures Ended(IpcTrySend(old(Snapshot()), envid, value, srcva, perm, page), r)
    {
      if srcva != 0 && Illegal(srcva) {
        return Some(Err(E_INVAL));
      }
      var t := Envid2envOf(envid, false);
      if t.Err? {
        return Some(t);
      }
      var e := t.value;
      if !envs[e].recving {
        return Some(Err(E_IPC_NOT_RECV));
      }
      var from := envs[cur.value].id;
      envs[e] := envs[e].(value := value, from := from, perm := Mmu.PTE_V | perm, recving := false);
      envs[e] := envs[e].(status := Runnable);
      sched := sched + [e];
      return Some(if srcva != 0 then page else Ok(0));
    }

    method Create(pri: nat) returns (r: Option<Code>)
      requires Sane(Snapshot())
      modifies this`free, this`made, this`sched, envs, asids
      ensures Ended(EnvCreate(old(Snapshot()), pri), r)
    {
      var a := Alloc(0);
      if a.Err? {
        return None;
      }
      envs[a.value] := envs[a.value].(pri := pri);
      envs[a.value] := envs[a.value].(status := Runnable);
      sched := [a.value] + sched;
      return Some(a);
    }
  }
}
