/** Environments, the scheduler and IPC (kern/env.c, kern/sched.c, kern/syscall_all.c) as a state
    machine whose steps are the system calls and the timer.  An environment is its index in `envs`;
    what happens to its address space is in PageTables and Spaces. */
module Envs {
  import opened Basics
  import opened Bitmaps
  import Mmu

  const NENV := 1024
  const NASID := Mmu.NASID
  const UTEMP := Mmu.UTEMP
  const UTOP := Mmu.UTOP
  const ENV_RUNNABLE := 1
  const ENV_NOT_RUNNABLE := 2

  datatype Status = Free | Runnable | NotRunnable

  datatype Env = Env(id: nat, asid: nat, parent: nat, status: Status, pri: nat,
                     value: nat, from: nat, perm: bv12, recving: bool, dstva: nat)

  /** `count` is the static variable of schedule, `made` that of mkenvid. */
  datatype Kernel = Kernel(envs: seq<Env>, free: seq<nat>, sched: seq<nat>, asids: seq<Word32>,
                           cur: Option<nat>, count: int, made: nat)

  datatype Error = E_BAD_ENV | E_NO_FREE_ENV | E_INVAL | E_IPC_NOT_RECV | E_NO_MEM
  type Code = Result<nat, Error>

  /** A kernel entry returns, or panics.  Where schedule ends it there is no return code; then it is 0. */
  datatype Outcome = Ret(k: Kernel, r: Code) | Panic

  predicate Illegal(va: nat) { va < UTEMP || va >= UTOP }

  // ----- Allocation -----

  /** The lowest ASID from `i` on that is not in use. */
  function FirstClear(words: seq<Word32>, i: nat): (r: Option<nat>)
    ensures r.Some? ==> i <= r.value < NASID && !Bit(words, r.value)
    ensures forall j: nat :: i <= j < (if r.Some? then r.value else NASID) ==> Bit(words, j)
    decreases if i < NASID then NASID - i else 0
  {
    if i >= NASID then None else if !Bit(words, i) then Some(i) else FirstClear(words, i + 1)
  }

  /** mkenvid with the counter at `i`: a u_int holds 21 bits of it. */
  function IdOf(i: nat, e: nat): nat { i * (2 * NENV) % 0x1_0000_0000 + e }

  /** env_alloc; the new environment is off the free list but still has status Free. */
  function EnvAlloc(k: Kernel, parent: nat): (res: (Kernel, Code))
    requires |k.envs| == NENV && |k.asids| == NASID / 32 && forall e :: e in k.free ==> e < NENV
    ensures |res.0.envs| == NENV && (res.1.Ok? ==> res.1.value < NENV)
  {
    if k.free == [] then (k, Err(E_NO_FREE_ENV))
    else
      var e := k.free[0];
      assert e in k.free;
      var u := k.(made := k.made + 1, envs := k.envs[e := k.envs[e].(id := IdOf(k.made + 1, e))]);
      match FirstClear(k.asids, 0)
      case None => (u, Err(E_NO_FREE_ENV))
      case Some(a) =>
        (u.(envs := u.envs[e := u.envs[e].(asid := a, parent := parent)],
            asids := Put(u.asids, a, true), free := u.free[1..]), Ok(e))
  }

  // ----- Scheduling -----

  /** env_run. */
  function EnvRun(k: Kernel, e: nat): Outcome {
    if e < |k.envs| && k.envs[e].status == Runnable then Ret(k.(cur := Some(e)), Ok(0)) else Panic
  }

  predicate IsRunnable(k: Kernel, e: Option<nat>) {
    e.Some? && e.value < |k.envs| && k.envs[e.value].status == Runnable
  }

  function Schedule(k: Kernel, giveUp: bool): Outcome {
    var count := k.count - 1;
    if giveUp || count == 0 || !IsRunnable(k, k.cur) then
      var sched := if IsRunnable(k, k.cur) then Without(k.sched, k.cur.value) + [k.cur.value] else k.sched;
      if sched == [] || sched[0] >= |k.envs| then Panic
      else EnvRun(k.(sched := sched, count := k.envs[sched[0]].pri), sched[0])
    else EnvRun(k.(count := count), k.cur.value)
  }

  // ----- System calls -----

  /** Some environment is running. */
  ghost predicate Sane(k: Kernel) {
    && |k.envs| == NENV && |k.asids| == NASID / 32 && (forall e :: e in k.free || e in k.sched ==> e < NENV)
    && (k.cur.Some? ==> k.cur.value < NENV)
  }

  function Envid2env(k: Kernel, envid: nat, checkperm: bool): (r: Code)
    requires Sane(k) && k.cur.Some?
    ensures r.Ok? ==> r.value < NENV
  {
    if envid == 0 then Ok(k.cur.value)
    else
      var e := envid % NENV;
      if k.envs[e].status == Free || k.envs[e].id != envid then Err(E_BAD_ENV)
      else if checkperm && e != k.cur.value && k.envs[e].parent != k.envs[k.cur.value].id then Err(E_BAD_ENV)
      else Ok(e)
  }

  function Exofork(k: Kernel): Outcome
    requires Sane(k) && k.cur.Some?
  {
    var c := k.envs[k.cur.value];
    var (u, r) := EnvAlloc(k, c.id);
    if r.Err? then Ret(u, r)
    else
      var e := u.envs[r.value];
      Ret(u.(envs := u.envs[r.value := e.(status := NotRunnable, pri := c.pri)]), Ok(e.id))
  }

  function SetEnvStatus(k: Kernel, envid: nat, status: nat): Outcome
    requires Sane(k) && k.cur.Some?
  {
    if status != ENV_RUNNABLE && status != ENV_NOT_RUNNABLE then Ret(k, Err(E_INVAL))
    else
      var r := Envid2env(k, envid, true);
      if r.Err? then Ret(k, r)
      else
        var u := SetStatus(k, r.value, status == ENV_RUNNABLE);
        if Some(r.value) == k.cur then Schedule(u, true) else Ret(u, Ok(0))
  }

  function SetStatus(k: Kernel, e: nat, run: bool): Kernel
    requires e < |k.envs|
  {
    var s := k.envs[e].status;
    var sched := if run && s != Runnable then k.sched + [e]
                 else if !run && s != NotRunnable then Without(k.sched, e)
                 else k.sched;
    k.(sched := sched, envs := k.envs[e := k.envs[e].(status := if run then Runnable else NotRunnable)])
  }

  /** The part of env_free outside the address space. */
  function EnvFree(k: Kernel, e: nat): Kernel
    requires e < |k.envs| && k.envs[e].asid < NASID && |k.asids| == NASID / 32
  {
    k.(asids := Put(k.asids, k.envs[e].asid, false),
       envs := k.envs[e := k.envs[e].(status := Free)],
       free := [e] + k.free,
       sched := Without(k.sched, e))
  }

  function Destroy(k: Kernel, envid: nat): Outcome
    requires Sane(k) && k.cur.Some? && forall e :: e in k.envs ==> e.asid < NASID
  {
    var r := Envid2env(k, envid, true);
    if r.Err? then Ret(k, r)
    else
      var u := EnvFree(k, r.value);
      if k.cur == Some(r.value) then Schedule(u.(cur := None), true) else Ret(u, Ok(0))
  }

  /** The running environment is set to wait for a message. */
  function Block(k: Kernel, dstva: nat): Kernel
    requires Sane(k) && k.cur.Some?
  {
    var c := k.cur.value;
    k.(envs := k.envs[c := k.envs[c].(recving := true, dstva := dstva, status := NotRunnable)],
       sched := Without(k.sched, c))
  }

  function IpcRecv(k: Kernel, dstva: nat): Outcome
    requires Sane(k) && k.cur.Some?
  {
    if dstva != 0 && Illegal(dstva) then Ret(k, Err(E_INVAL)) else Schedule(Block(k, dstva), true)
  }

  /** `page` is what the mapping of the page comes to, should it be reached. */
  function IpcTrySend(k: Kernel, envid: nat, value: nat, srcva: nat, perm: bv12, page: Code): Outcome
    requires Sane(k) && k.cur.Some?
  {
    if srcva != 0 && Illegal(srcva) then Ret(k, Err(E_INVAL))
    else
      var r := Envid2env(k, envid, false);
      if r.Err? then Ret(k, r)
      else if !k.envs[r.value].recving then Ret(k, Err(E_IPC_NOT_RECV))
      else
        var from := k.envs[k.cur.value].id;
        var e := k.envs[r.value].(value := value, from := from, perm := Mmu.PTE_V | perm,
                                  recving := false, status := Runnable);
        Ret(k.(envs := k.envs[r.value := e], sched := k.sched + [r.value]), if srcva != 0 then page else Ok(0))
  }

  /** env_create, which only the booting kernel calls, and which does not look whether env_alloc
      succeeded. */
  function EnvCreate(k: Kernel, pri: nat): Outcome
    requires Sane(k)
  {
    var (u, r) := EnvAlloc(k, 0);
    if r.Err? then Panic
    else
      var e := u.envs[r.value].(pri := pri, status := Runnable);
      Ret(u.(envs := u.envs[r.value := e], sched := [r.value] + u.sched), r)
  }

  // ----- The invariant -----

  /** An env is in the list iff it is runnable, once; a free one is in the free list, once. */
  ghost predicate Listed(k: Kernel) {
    && Sane(k) && NoDup(k.sched) && NoDup(k.free)
    && (forall e: nat :: e < NENV ==> (e in k.sched <==> k.envs[e].status == Runnable))
    && (forall e: nat :: e < NENV ==> (e in k.free <==> k.envs[e].status == Free))
  }

  /** An env blocked in receive is not runnable. */
  ghost predicate Blocked(k: Kernel)
    requires |k.envs| == NENV
  {
    forall e: nat :: e < NENV && k.envs[e].recving ==> k.envs[e].status == NotRunnable
  }

  /** The one that runs is the head of the list. */
  ghost predicate RunsHead(k: Kernel) {
    k.cur.Some? ==> k.sched != [] && k.sched[0] == k.cur.value
  }

  /** The ASIDs in use are those of the live environments, which share none. */
  ghost predicate AsidsOk(k: Kernel)
    requires |k.envs| == NENV
  {
    && (forall e: nat :: e < NENV ==> k.envs[e].asid < NASID)
    && (forall e: nat :: e < NENV && k.envs[e].status != Free ==> Bit(k.asids, k.envs[e].asid))
    && (forall e: nat, f: nat :: e < NENV && f < NENV && SameAsid(k.envs[e], k.envs[f]) ==> e == f)
    && (forall a: nat :: a < NASID && Bit(k.asids, a) ==>
          exists e: nat :: e < NENV && k.envs[e].status != Free && k.envs[e].asid == a)
  }

  ghost predicate SameAsid(e: Env, f: Env) {
    e.status != Free && f.status != Free && e.asid == f.asid
  }

  /** Identifiers come from the counter. */
  ghost predicate IdsOk(k: Kernel)
    requires |k.envs| == NENV
  {
    forall e: nat :: e < NENV && k.envs[e].status != Free ==>
      exists i: nat :: 0 < i <= k.made && k.envs[e].id == IdOf(i, e)
  }

  ghost predicate Inv(k: Kernel) {
    Listed(k) && Blocked(k) && RunsHead(k) && AsidsOk(k) && IdsOk(k)
  }

  // ----- Steps -----

  datatype Op =
    | Create(pri: nat)
    | Tick
    | Yield
    | Fork
    | Status(envid: nat, status: nat)
    | Kill(envid: nat)
    | Recv(dstva: nat)
    | Send(envid: nat, value: nat, srcva: nat, perm: bv12, page: Code)

  function Step(k: Kernel, op: Op): Outcome
    requires Sane(k) && (op.Create? || op.Tick? || k.cur.Some?) && forall e :: e in k.envs ==> e.asid < NASID
  {
    match op
    case Create(pri) => EnvCreate(k, pri)
    case Tick => Schedule(k, false)
    case Yield => Schedule(k, true)
    case Fork => Exofork(k)
    case Status(envid, status) => SetEnvStatus(k, envid, status)
    case Kill(envid) => Destroy(k, envid)
    case Recv(dstva) => IpcRecv(k, dstva)
    case Send(envid, value, srcva, perm, page) => IpcTrySend(k, envid, value, srcva, perm, page)
  }

  /** Environments are created at boot; the calls are a running environment's; a destroyed one must be
      runnable, and one blocked in receive must not be made runnable. */
  ghost predicate Allowed(k: Kernel, op: Op) {
    && Sane(k) && (op.Create? ==> k.cur.None?) && (op.Create? || op.Tick? || k.cur.Some?)
    && match op
       case Kill(envid) => var r := Envid2env(k, envid, true); r.Ok? ==> k.envs[r.value].status == Runnable
       case Status(envid, status) =>
         var r := Envid2env(k, envid, true); r.Ok? && status == ENV_RUNNABLE ==> !k.envs[r.value].recving
       case _ => true
  }
}
