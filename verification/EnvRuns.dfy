/** What holds of every run of the kernel, and of the calls one by one. */
module EnvRuns {
  import opened Basics
  import opened Bitmaps
  import opened Envs
  import opened EnvInvariants

  /** The indices from `i` to `n`. */
  function Upto(i: nat, n: nat): (s: seq<nat>)
    requires i <= n
    ensures |s| == n - i && forall j :: 0 <= j < n - i ==> s[j] == i + j
    decreases n - i
  {
    if i == n then [] else [i] + Upto(i + 1, n)
  }

  /** env_init: every environment is free, and the list is in the order of the array. */
  function Initial(): Kernel {
    Kernel(seq(NENV, _ => Env(0, 0, 0, Free, 0, 0, 0, 0, false, 0)), Upto(0, NENV), [],
           seq(NASID / 32, _ => seq(32, _ => false)), None, 0, 0)
  }

  lemma UptoHolds(n: nat)
    ensures NoDup(Upto(0, n)) && forall e: nat :: e in Upto(0, n) <==> e < n
  {
    var s := Upto(0, n);
    forall e: nat | e < n ensures e in s {
      assert s[e] == e;
    }
    forall e: nat | e in s ensures e < n {
      var j :| 0 <= j < |s| && s[j] == e;
    }
  }

  lemma InitialInv()
    ensures Inv(Initial())
  {
    var k := Initial();
    UptoHolds(NENV);
    assert forall e: nat :: e < NENV ==> k.envs[e].status == Free && !k.envs[e].recving && k.envs[e].asid == 0;
    assert forall a: nat :: !Bit(k.asids, a);
  }

  ghost predicate AllAllowed(k: Kernel, ops: seq<Op>)
    decreases |ops|
  {
    ops == [] || (Allowed(k, ops[0]) && (forall e :: e in k.envs ==> e.asid < NASID)
                  && (Step(k, ops[0]).Ret? ==> AllAllowed(Step(k, ops[0]).k, ops[1..])))
  }

  /** The state after the steps, unless one panicked. */
  ghost function Run(k: Kernel, ops: seq<Op>): Option<Kernel>
    requires AllAllowed(k, ops)
    decreases |ops|
  {
    if ops == [] then Some(k)
    else
      match Step(k, ops[0])
      case Panic => None
      case Ret(u, _) => Run(u, ops[1..])
  }

  /** From boot on, in every reachable state the lists hold what they should. */
  lemma {:induction false} RunKeeps(k: Kernel, ops: seq<Op>)
    requires Inv(k) && AllAllowed(k, ops)
    ensures Run(k, ops).Some? ==> Inv(Run(k, ops).value)
    decreases |ops|
  {
    if ops != [] {
      StepKeeps(k, ops[0]);
      if Step(k, ops[0]).Ret? {
        RunKeeps(Step(k, ops[0]).k, ops[1..]);
      }
    }
  }

  // ----- The exceptions -----

  /** sys_set_env_status keeps the lists iff it does not make runnable an environment that is blocked
      in receive. */
  lemma SetStatusIff(k: Kernel, e: nat, run: bool)
    requires Inv(k) && e < NENV && k.envs[e].status != Free
    ensures Orderly(SetStatus(k, e, run)) <==> !(run && k.envs[e].recving)
  {
    if !(run && k.envs[e].recving) {
      SetStatusKeeps(k, e, run);
    } else {
      assert SetStatus(k, e, run).envs[e].recving;
    }
  }

  /** And where it does, the next send puts that environment into the list a second time. */
  lemma ThenListedTwice(k: Kernel, e: nat, value: nat, perm: bv12)
    requires Inv(k) && k.cur.Some? && e < NENV && k.envs[e].recving && k.envs[e].id != 0
    ensures var u := SetStatus(k, e, true);
      Sane(u) && !NoDup(IpcTrySend(u, k.envs[e].id, value, 0, perm, Ok(0)).k.sched)
  {
    var u := SetStatus(k, e, true);
    IdPlace(k, e);
    assert u.sched == k.sched + [e];
    assert u.sched[|k.sched|] == e;
    var v := IpcTrySend(u, k.envs[e].id, value, 0, perm, Ok(0)).k;
    assert v.sched[|k.sched|] == v.sched[|k.sched| + 1] == e;
  }

  lemma SchedulePanics(k: Kernel, giveUp: bool)
    requires Listed(k) && (giveUp || RunsHead(k))
    ensures Schedule(k, giveUp).Panic? <==> k.sched == []
  {
    if k.sched != [] {
      assert k.sched[0] in k.sched;
    }
    if IsRunnable(k, k.cur) {
      WithoutIs(k.sched, k.cur.value);
      var sched := Without(k.sched, k.cur.value) + [k.cur.value];
      assert sched[0] in k.sched;
    }
  }

  lemma RecvPanics(k: Kernel, dstva: nat)
    requires Inv(k) && k.cur.Some?
    ensures IpcRecv(k, dstva).Panic? <==> |k.sched| == 1 && (dstva == 0 || !Illegal(dstva))
  {
    var c := k.cur.value;
    assert c in k.sched;
    WithoutIs(k.sched, c);
    assert Block(k, dstva).sched == k.sched[1..];
    SchedulePanics(Block(k, dstva), true);
  }

  lemma StatusPanics(k: Kernel, envid: nat, status: nat)
    requires Inv(k) && Allowed(k, Status(envid, status))
    ensures SetEnvStatus(k, envid, status).Panic? <==>
      |k.sched| == 1 && status == ENV_NOT_RUNNABLE && Envid2env(k, envid, true) == Ok(k.cur.value)
  {
    var c := k.cur.value;
    assert c in k.sched;
    assert Without(k.sched, c) == k.sched[1..];
    if Envid2env(k, envid, true) == Ok(c) {
      SetStatusKeeps(k, c, status == ENV_RUNNABLE);
      SchedulePanics(SetStatus(k, c, status == ENV_RUNNABLE), true);
    }
  }

  lemma KillPanics(k: Kernel, envid: nat)
    requires Inv(k) && Allowed(k, Kill(envid))
    ensures Destroy(k, envid).Panic? <==> |k.sched| == 1 && Envid2env(k, envid, true) == Ok(k.cur.value)
  {
    var c := k.cur.value;
    assert c in k.sched;
    assert Without(k.sched, c) == k.sched[1..];
    if Envid2env(k, envid, true) == Ok(c) {
      KillKeeps(k, c);
      SchedulePanics(EnvFree(k, c).(cur := None), true);
    }
  }

  /** A kernel entry panics only for want of a runnable environment, or at boot of a free one. */
  lemma PanicIff(k: Kernel, op: Op)
    requires Inv(k) && Allowed(k, op)
    ensures Step(k, op).Panic? <==>
      match op
      case Create(_) => k.free == [] || FirstClear(k.asids, 0).None?
      case Tick => k.sched == []
      case Recv(dstva) => |k.sched| == 1 && (dstva == 0 || !Illegal(dstva))
      case Status(envid, status) =>
        |k.sched| == 1 && status == ENV_NOT_RUNNABLE && Envid2env(k, envid, true) == Ok(k.cur.value)
      case Kill(envid) => |k.sched| == 1 && Envid2env(k, envid, true) == Ok(k.cur.value)
      case _ => false
  {
    match op
    case Recv(dstva) => RecvPanics(k, dstva);
    case Status(envid, status) => StatusPanics(k, envid, status);
    case Kill(envid) => KillPanics(k, envid);
    case Tick => SchedulePanics(k, false);
    case Yield => SchedulePanics(k, true);
    case _ =>
  }

  // ----- Identifiers -----

  lemma IdHigh(i: nat)
    ensures i * (2 * NENV) % 0x1_0000_0000 == i % 0x20_0000 * (2 * NENV)
  {
  }

  lemma IdPlace(k: Kernel, e: nat)
    requires Inv(k) && e < NENV && k.envs[e].status != Free
    ensures k.envs[e].id % NENV == e
  {
    var i: nat :| 0 < i <= k.made && k.envs[e].id == IdOf(i, e);
    IdHigh(i);
    ModOf(k.envs[e].id, i % 0x20_0000, e);
  }

  lemma ModOf(x: nat, h: nat, e: nat)
    requires x == 2048 * h + e && e < 1024
    ensures x % 1024 == e
  {
    var q := x / 1024;
    assert x == 1024 * q + x % 1024;
    assert q == 2 * h;
  }

  /** envid2env finds exactly the live environment of that identifier, and with `checkperm` only the
      caller itself and its children. */
  lemma EnvidIff(k: Kernel, envid: nat, check: bool, e: nat)
    requires Inv(k) && k.cur.Some? && envid != 0
    ensures Envid2env(k, envid, check) == Ok(e) <==>
      e < NENV && k.envs[e].status != Free && k.envs[e].id == envid
      && (check ==> k.cur == Some(e) || k.envs[e].parent == k.envs[k.cur.value].id)
  {
    if e < NENV && k.envs[e].status != Free {
      IdPlace(k, e);
    }
  }

  /** Two identifiers are the same iff they name the same place, and their counts agree in the 21 bits
      that are kept. */
  lemma SameIdIff(i: nat, e: nat, j: nat, f: nat)
    requires e < NENV && f < NENV
    ensures IdOf(i, e) == IdOf(j, f) <==> e == f && i % 0x20_0000 == j % 0x20_0000
  {
    IdHigh(i);
    IdHigh(j);
  }

  /** The environments for which mkenvid was called in a run, in order. */
  ghost function Handed(k: Kernel, ops: seq<Op>): seq<nat>
    requires AllAllowed(k, ops)
    decreases |ops|
  {
    if ops == [] then []
    else
      (if (ops[0].Fork? || ops[0].Create?) && k.free != [] then [k.free[0]] else [])
      + match Step(k, ops[0])
        case Panic => []
        case Ret(u, _) => Handed(u, ops[1..])
  }

  lemma StepMade(k: Kernel, op: Op)
    requires Inv(k) && Allowed(k, op) && Step(k, op).Ret?
    ensures Step(k, op).k.made == k.made + if (op.Fork? || op.Create?) && k.free != [] then 1 else 0
  {
    if k.free != [] {
      FreeInRange(k);
    }
    if op.Fork? && k.free != [] {
      ExoforkIs(k);
    }
    if op.Create? {
      CreateIs(k, op.pri);
    }
  }

  lemma {:induction false} HandedCounts(k: Kernel, ops: seq<Op>)
    requires Inv(k) && AllAllowed(k, ops)
    ensures Run(k, ops).Some? ==> Run(k, ops).value.made == k.made + |Handed(k, ops)|
    ensures forall i :: 0 <= i < |Handed(k, ops)| ==> Handed(k, ops)[i] < NENV
    decreases |ops|
  {
    if ops != [] {
      if k.free != [] {
        FreeInRange(k);
      }
      StepKeeps(k, ops[0]);
      if Step(k, ops[0]).Ret? {
        StepMade(k, ops[0]);
        HandedCounts(Step(k, ops[0]).k, ops[1..]);
      }
    }
  }

  lemma Congruent(i: nat, n: nat)
    requires i <= n
    ensures (i + 1) % 0x20_0000 == (n + 1) % 0x20_0000 <==> (n - i) % 0x20_0000 == 0
  {
  }

  /** The `i`-th identifier made was for the `i`-th environment handed out; this one was among them. */
  ghost predicate Made(h: seq<nat>, id: nat) {
    exists i: nat :: i < |h| && IdOf(i + 1, h[i]) == id
  }

  /** Some multiple of 2^21 identifiers ago one was made for the environment. */
  ghost predicate DueAgain(h: seq<nat>, e: nat) {
    exists i: nat :: i < |h| && h[i] == e && (|h| - i) % 0x20_0000 == 0
  }

  lemma NewIdAmong(h: seq<nat>, e: nat)
    requires e < NENV && forall i :: 0 <= i < |h| ==> h[i] < NENV
    ensures Made(h, IdOf(|h| + 1, e)) <==> DueAgain(h, e)
  {
    forall i: nat | i < |h|
      ensures IdOf(i + 1, h[i]) == IdOf(|h| + 1, e) <==> h[i] == e && (|h| - i) % 0x20_0000 == 0
    {
      SameIdIff(i + 1, h[i], |h| + 1, e);
      Congruent(i, |h|);
    }
  }

  /** After any run from boot, where no identifier has been made: the one made next was given before iff,
      some multiple of 2^21 identifiers ago, one was made for the same environment. */
  lemma NewIdIff(boot: Kernel, ops: seq<Op>, e: nat)
    requires Inv(boot) && boot.made == 0 && AllAllowed(boot, ops) && Run(boot, ops).Some? && e < NENV
    ensures Made(Handed(boot, ops), IdOf(Run(boot, ops).value.made + 1, e)) <==> DueAgain(Handed(boot, ops), e)
  {
    MadeIsHanded(boot, ops);
    NewIdAmong(Handed(boot, ops), e);
  }

  lemma MadeIsHanded(boot: Kernel, ops: seq<Op>)
    requires Inv(boot) && boot.made == 0 && AllAllowed(boot, ops) && Run(boot, ops).Some?
    ensures var h := Handed(boot, ops);
      Run(boot, ops).value.made == |h| && forall i :: 0 <= i < |h| ==> h[i] < NENV
  {
    HandedCounts(boot, ops);
  }
}
