/** Weighted round robin (kern/sched.c): what the timer does to a fixed set of environments. */
module RoundRobin {
  import opened Basics
  import opened Envs
  import opened EnvInvariants

  /** Priorities are at least 1, and the one that runs has some of its slices left. */
  ghost predicate Fair(k: Kernel)
    requires Sane(k)
  {
    && (forall e: nat :: e < NENV && k.envs[e].status != Free ==> k.envs[e].pri >= 1)
    && (k.cur.Some? ==> 1 <= k.count <= k.envs[k.cur.value].pri)
  }

  lemma ScheduleFair(k: Kernel, giveUp: bool)
    requires Orderly(k) && (giveUp || RunsHead(k))
    requires forall e: nat :: e < NENV && k.envs[e].status != Free ==> k.envs[e].pri >= 1
    requires giveUp || k.cur.None? || 1 <= k.count <= k.envs[k.cur.value].pri
    ensures var o := Schedule(k, giveUp); o.Ret? ==> Sane(o.k) && Fair(o.k)
  {
    ScheduleKeeps(k, giveUp);
  }

  lemma SetFair(k: Kernel, e: nat, run: bool)
    requires Inv(k) && Fair(k) && k.cur.Some? && e < NENV && k.envs[e].status != Free && (run ==> !k.envs[e].recving)
    ensures var u := SetStatus(k, e, run); var o := Schedule(u, true);
      Sane(u) && if k.cur == Some(e) then o.Ret? ==> Sane(o.k) && Fair(o.k) else Fair(u)
  {
    var u := SetStatus(k, e, run);
    SetStatusKeeps(k, e, run);
    if k.cur == Some(e) {
      ScheduleFair(u, true);
    }
  }

  lemma StatusFair(k: Kernel, envid: nat, status: nat)
    requires Inv(k) && Fair(k) && Allowed(k, Status(envid, status))
    ensures var o := SetEnvStatus(k, envid, status); o.Ret? ==> Sane(o.k) && Fair(o.k)
  {
    var r := Envid2env(k, envid, true);
    if r.Ok? && (status == ENV_RUNNABLE || status == ENV_NOT_RUNNABLE) {
      assert k.cur.value in k.sched;
      SetFair(k, r.value, status == ENV_RUNNABLE);
    }
  }

  lemma KillFair(k: Kernel, envid: nat)
    requires Inv(k) && Fair(k) && Allowed(k, Kill(envid))
    ensures var o := Destroy(k, envid); o.Ret? ==> Sane(o.k) && Fair(o.k)
  {
    var r := Envid2env(k, envid, true);
    if r.Ok? {
      KillKeeps(k, r.value);
      ScheduleFair(EnvFree(k, r.value).(cur := None), true);
    }
  }

  lemma RecvFair(k: Kernel, dstva: nat)
    requires Inv(k) && Fair(k) && k.cur.Some?
    ensures var o := IpcRecv(k, dstva); o.Ret? ==> Sane(o.k) && Fair(o.k)
  {
    RecvKeeps(k, dstva);
  }

  lemma SendFair(k: Kernel, envid: nat, value: nat, srcva: nat, perm: bv12, page: Code)
    requires Inv(k) && Fair(k) && k.cur.Some?
    ensures var o := IpcTrySend(k, envid, value, srcva, perm, page); Sane(o.k) && Fair(o.k)
  {
    SendKeeps(k, envid, value, srcva, perm, page);
  }

  lemma BirthFair(k: Kernel, a: nat, parent: nat, status: Status, pri: nat)
    requires Inv(k) && Fair(k) && k.free != [] && k.free[0] < NENV && a < NASID && pri >= 1
    requires Sane(Birth(k, a, parent, status, pri))
    ensures Fair(Birth(k, a, parent, status, pri))
  {
    assert k.free[0] in k.free;
    if k.cur.Some? {
      assert k.cur.value in k.sched;
    }
  }

  lemma ForkFair(k: Kernel)
    requires Inv(k) && Fair(k) && k.cur.Some?
    ensures Sane(Exofork(k).k) && Fair(Exofork(k).k)
  {
    assert k.cur.value in k.sched;
    ExoforkKeeps(k);
    if k.free != [] {
      FreeInRange(k);
      ExoforkIs(k);
      var c := k.envs[k.cur.value];
      match FirstClear(k.asids, 0)
      case Some(a) => BirthFair(k, a, c.id, NotRunnable, c.pri);
      case None =>
    }
  }

  lemma CreateFair(k: Kernel, pri: nat)
    requires Inv(k) && Fair(k) && k.cur.None? && pri >= 1 && EnvCreate(k, pri).Ret?
    ensures Sane(EnvCreate(k, pri).k) && Fair(EnvCreate(k, pri).k)
  {
    CreateKeeps(k, pri);
    CreateIs(k, pri);
  }

  /** Every call leaves between 1 and its priority slices to the one that runs. */
  lemma StepFair(k: Kernel, op: Op)
    requires Inv(k) && Fair(k) && Allowed(k, op) && (op.Create? ==> op.pri >= 1)
    ensures var o := Step(k, op); o.Ret? ==> Sane(o.k) && Fair(o.k)
  {
    match op
    case Create(pri) => if EnvCreate(k, pri).Ret? { CreateFair(k, pri); }
    case Fork => ForkFair(k);
    case Tick => ScheduleFair(k, false);
    case Yield => ScheduleFair(k, true);
    case Status(envid, status) => StatusFair(k, envid, status);
    case Kill(envid) => KillFair(k, envid);
    case Recv(dstva) => RecvFair(k, dstva);
    case Send(envid, value, srcva, perm, page) => SendFair(k, envid, value, srcva, perm, page);
  }

  // ----- Iteration -----

  function Iterate<S>(f: S -> S, s: S, t: nat): S {
    if t == 0 then s else f(Iterate(f, s, t - 1))
  }

  /** What `abs` makes of each step is a step of `g`, so that holds of any number of them. */
  lemma {:induction false} Simulates<S, R>(f: S -> S, g: R -> R, abs: S -> R, inv: S -> bool, s: S, t: nat)
    requires inv(s) && forall u :: inv(u) ==> inv(f(u)) && abs(f(u)) == g(abs(u))
    ensures inv(Iterate(f, s, t)) && abs(Iterate(f, s, t)) == Iterate(g, abs(s), t)
  {
    if t > 0 {
      Simulates(f, g, abs, inv, s, t - 1);
    }
  }

  lemma {:induction false} Repeats<S>(f: S -> S, s: S, p: nat, t: nat)
    requires Iterate(f, s, p) == s
    ensures Iterate(f, s, p + t) == Iterate(f, s, t)
    decreases t
  {
    if t > 0 {
      Repeats(f, s, p, t - 1);
    }
  }

  // ----- A ring of slots -----

  datatype Slot = Slot(e: nat, pri: nat)

  /** The runnable environments, the running one first, and the slices it has left. */
  datatype Ring = Ring(slots: seq<Slot>, count: int)

  predicate Turning(r: Ring) {
    r.slots != [] && r.count >= 1 && forall i :: 0 <= i < |r.slots| ==> r.slots[i].pri >= 1
  }

  function Rotated(slots: seq<Slot>, j: nat): seq<Slot>
    requires j <= |slots|
  {
    slots[j..] + slots[..j]
  }

  function RingTick(r: Ring): Ring {
    if r.count == 1 && r.slots != [] then
      var slots := Rotated(r.slots, 1);
      Ring(slots, slots[0].pri)
    else Ring(r.slots, r.count - 1)
  }

  function RingTicks(r: Ring, t: nat): Ring { Iterate(RingTick, r, t) }

  /** How long until the `j`-th runs: the rest of the head's slices and the priorities of those ahead.
      For the length of the ring, until the round is over. */
  function Wait(r: Ring, j: nat): int
    requires j <= |r.slots|
  {
    if j == 0 then 0 else if j == 1 then r.count else Wait(r, j - 1) + r.slots[j - 1].pri
  }

  lemma RotateNext(slots: seq<Slot>, j: nat)
    requires j < |slots|
    ensures Rotated(Rotated(slots, j), 1) == Rotated(slots, j + 1)
    ensures Rotated(slots, j)[0] == slots[j] && Rotated(slots, |slots|) == slots
    ensures Rotated(slots, j + 1)[0] == if j + 1 < |slots| then slots[j + 1] else slots[0]
  {
  }

  lemma NextTurn(slots: seq<Slot>, j: nat)
    requires j + 1 < |slots|
    ensures RingTick(Ring(Rotated(slots, j), 1)) == Ring(Rotated(slots, j + 1), slots[j + 1].pri)
  {
    RotateNext(slots, j);
  }

  /** From the end of its wait on the `j`-th is at the head, with a slice less at each tick. */
  lemma {:induction false} RingAt(r: Ring, j: nat, t: nat)
    requires Turning(r) && j < |r.slots| && Wait(r, j) <= t < Wait(r, j + 1)
    ensures RingTicks(r, t) == Ring(Rotated(r.slots, j), Wait(r, j + 1) - t)
    decreases t
  {
    if t == 0 {
      WaitGrows(r, 0, j);
    } else if Wait(r, j) < t {
      RingAt(r, j, t - 1);
    } else {
      RingAt(r, j - 1, t - 1);
      NextTurn(r.slots, j - 1);
    }
  }

  lemma {:induction false} WaitGrows(r: Ring, i: nat, j: nat)
    requires Turning(r) && i <= j <= |r.slots|
    ensures Wait(r, i) + (j - i) <= Wait(r, j)
    decreases j
  {
    if i < j {
      WaitGrows(r, i, j - 1);
    }
  }

  /** At the end of the round the ring is as it was, the head with all its slices. */
  lemma RingRound(r: Ring)
    requires Turning(r)
    ensures Wait(r, |r.slots|) >= 1 && RingTicks(r, Wait(r, |r.slots|)) == Ring(r.slots, r.slots[0].pri)
  {
    WaitGrows(r, 0, |r.slots|);
    RoundEnds(r, |r.slots| - 1, Wait(r, |r.slots|) - 1);
  }

  lemma RoundEnds(r: Ring, j: nat, t: nat)
    requires Turning(r) && j + 1 == |r.slots| && t + 1 == Wait(r, j + 1)
    ensures RingTicks(r, t + 1) == Ring(r.slots, r.slots[0].pri)
  {
    WaitGrows(r, j, j + 1);
    RingAt(r, j, t);
    LastTick(r.slots);
  }

  lemma LastTick(slots: seq<Slot>)
    requires slots != []
    ensures RingTick(Ring(Rotated(slots, |slots| - 1), 1)) == Ring(slots, slots[0].pri)
  {
    RotateNext(slots, |slots| - 1);
  }

  /** Whose turn it is at time `t` of the round. */
  lemma {:induction false} SomeTurn(r: Ring, n: nat, t: nat) returns (j: nat)
    requires Turning(r) && n <= |r.slots| && t < Wait(r, n)
    ensures j < n && Wait(r, j) <= t < Wait(r, j + 1)
    decreases n
  {
    if t < Wait(r, n - 1) {
      j := SomeTurn(r, n - 1, t);
    } else {
      j := n - 1;
    }
  }

  // ----- The scheduler is that ring -----

  predicate Ready(k: Kernel, e: nat) {
    e < |k.envs| && k.envs[e].status == Runnable && k.envs[e].pri >= 1
  }

  /** The head of the list runs, all in it are ready, and it has slices left. */
  predicate Running(k: Kernel) {
    && k.sched != [] && k.cur == Some(k.sched[0]) && k.count >= 1
    && forall i :: 0 <= i < |k.sched| ==> Ready(k, k.sched[i])
  }

  /** That is how things are whenever an environment runs. */
  lemma AlwaysRunning(k: Kernel)
    requires Inv(k) && k.cur.Some? && Fair(k)
    ensures Running(k) && NoDup(k.sched)
  {
    forall i | 0 <= i < |k.sched| ensures Ready(k, k.sched[i]) {
      assert k.sched[i] in k.sched;
    }
  }

  /** The state after a tick of the timer. */
  function Tick(k: Kernel): Kernel {
    match Schedule(k, false)
    case Ret(u, _) => u
    case Panic => k
  }

  function Ticks(k: Kernel, t: nat): Kernel { Iterate(Tick, k, t) }

  function SlotOf(k: Kernel, e: nat): Slot {
    Slot(e, if e < |k.envs| then k.envs[e].pri else 0)
  }

  function RingOf(k: Kernel): Ring {
    Ring(seq(|k.sched|, i requires 0 <= i < |k.sched| => SlotOf(k, k.sched[i])), k.count)
  }

  lemma RingTurns(k: Kernel)
    requires Running(k)
    ensures Turning(RingOf(k))
  {
    forall i | 0 <= i < |k.sched| ensures SlotOf(k, k.sched[i]).pri >= 1 {
      assert Ready(k, k.sched[i]);
    }
  }

  /** One tick, spelled out. */
  lemma TickIs(k: Kernel)
    requires Running(k)
    ensures Tick(k) ==
      if k.count > 1 then k.(count := k.count - 1)
      else var sched := k.sched[1..] + k.sched[..1];
        k.(sched := sched, cur := Some(sched[0]), count := SlotOf(k, sched[0]).pri)
  {
    assert Ready(k, k.sched[0]);
    assert |k.sched| > 1 ==> Ready(k, k.sched[1]);
    var rest := k.sched[1..] + k.sched[..1];
    assert Without(k.sched, k.sched[0]) + [k.sched[0]] == rest;
  }

  lemma TickRefines(k: Kernel)
    requires Running(k)
    ensures Running(Tick(k)) && RingOf(Tick(k)) == RingTick(RingOf(k)) && OnlyTurned(k, Tick(k))
  {
    TickIs(k);
    TickRing(k, Tick(k));
    forall i | 0 <= i < |k.sched| ensures Ready(k, k.sched[i]) {
    }
  }

  /** But for the list, who runs and the slices nothing changed. */
  predicate OnlyTurned(k: Kernel, u: Kernel) {
    u == k.(sched := u.sched, cur := u.cur, count := u.count)
  }

  lemma TickRing(k: Kernel, u: Kernel)
    requires u.envs == k.envs && k.sched != []
    requires k.count > 1 ==> u.sched == k.sched && u.count == k.count - 1
    requires k.count <= 1 ==>
      u.sched == k.sched[1..] + k.sched[..1] && u.count == SlotOf(k, u.sched[0]).pri && k.count == 1
    ensures RingOf(u) == RingTick(RingOf(k))
  {
    if k.count > 1 {
      assert RingOf(u).slots == RingOf(k).slots;
    } else {
      assert RingOf(u).slots == Rotated(RingOf(k).slots, 1);
    }
  }

  lemma TickFrom(k: Kernel, u: Kernel)
    requires Running(u) && OnlyTurned(k, u)
    ensures Running(Tick(u)) && OnlyTurned(k, Tick(u)) && RingOf(Tick(u)) == RingTick(RingOf(u))
  {
    TickRefines(u);
  }

  /** Any number of ticks of the scheduler are as many ticks of the ring. */
  lemma TicksRefine(k: Kernel, t: nat)
    requires Running(k)
    ensures Running(Ticks(k, t)) && RingOf(Ticks(k, t)) == RingTicks(RingOf(k), t) && OnlyTurned(k, Ticks(k, t))
  {
    ghost var inv := (u: Kernel) => Running(u) && OnlyTurned(k, u);
    forall u | inv(u) ensures inv(Tick(u)) && RingOf(Tick(u)) == RingTick(RingOf(u)) {
      TickFrom(k, u);
    }
    Simulates(Tick, RingTick, RingOf, inv, k, t);
  }

  lemma HeadRuns(u: Kernel)
    requires Running(u)
    ensures RingOf(u).slots != [] && u.cur == Some(RingOf(u).slots[0].e)
  {
  }

  /** From the end of its wait on the `j`-th in the list runs, as many ticks as its priority says (the
      head for what is left of it), and is told so by `count`. */
  lemma RunsItsTurn(k: Kernel, j: nat, t: nat)
    requires Inv(k) && k.cur.Some? && Fair(k)
    requires j < |k.sched| && Wait(RingOf(k), j) <= t < Wait(RingOf(k), j + 1)
    ensures Ticks(k, t).cur == Some(k.sched[j]) && Ticks(k, t).count == Wait(RingOf(k), j + 1) - t
    ensures Wait(RingOf(k), j + 1) - Wait(RingOf(k), j) == if j == 0 then k.count else k.envs[k.sched[j]].pri
  {
    AlwaysRunning(k);
    HasItsTurn(k, j, t);
  }

  lemma HasItsTurn(k: Kernel, j: nat, t: nat)
    requires Running(k) && j < |k.sched| && Wait(RingOf(k), j) <= t < Wait(RingOf(k), j + 1)
    ensures Ticks(k, t).cur == Some(k.sched[j]) && Ticks(k, t).count == Wait(RingOf(k), j + 1) - t
    ensures Wait(RingOf(k), j + 1) - Wait(RingOf(k), j) == if j == 0 then k.count else k.envs[k.sched[j]].pri
  {
    var r := RingOf(k);
    RingTurns(k);
    RingAt(r, j, t);
    TicksRefine(k, t);
    HeadRuns(Ticks(k, t));
    assert Ready(k, k.sched[j]);
    assert Rotated(r.slots, j)[0] == r.slots[j];
  }

  /** The wait is exact: it does not run before. */
  lemma WaitIsExact(k: Kernel, j: nat, t: nat)
    requires Inv(k) && k.cur.Some? && Fair(k) && 0 < j < |k.sched| && t < Wait(RingOf(k), j)
    ensures Ticks(k, t).cur != Some(k.sched[j])
  {
    AlwaysRunning(k);
    RingTurns(k);
    var i := SomeTurn(RingOf(k), j, t);
    HasItsTurn(k, i, t);
  }

  function Sum(slots: seq<Slot>): nat {
    if slots == [] then 0 else Sum(slots[..|slots| - 1]) + slots[|slots| - 1].pri
  }

  lemma {:induction false} WaitIsSum(r: Ring, j: nat)
    requires Turning(r) && 0 < j <= |r.slots|
    ensures Wait(r, j) == r.count - r.slots[0].pri + Sum(r.slots[..j])
    decreases j
  {
    var front := r.slots[..j];
    assert front[..j - 1] == r.slots[..j - 1];
    if j > 1 {
      WaitIsSum(r, j - 1);
    } else {
      assert Sum(front[..0]) == 0;
    }
  }

  /** The wait is what the head has left and the priorities of those between. */
  lemma WaitIs(k: Kernel, j: nat)
    requires Running(k) && 0 < j < |k.sched|
    ensures Wait(RingOf(k), j) == k.count + Sum(RingOf(k).slots[1..j])
  {
    var slots := RingOf(k).slots;
    RingTurns(k);
    WaitIsSum(RingOf(k), j);
    SumFront(slots[..j]);
    assert slots[..j][1..] == slots[1..j];
  }

  lemma {:induction false} SumFront(slots: seq<Slot>)
    requires slots != []
    ensures Sum(slots) == slots[0].pri + Sum(slots[1..])
  {
    var n := |slots| - 1;
    if n > 0 {
      SumFront(slots[..n]);
      assert slots[..n][1..] == slots[1..][..n - 1];
    }
  }

  lemma PeriodIs(r: Ring)
    requires Turning(r) && r.count == r.slots[0].pri
    ensures RingTicks(r, Sum(r.slots)) == r
  {
    WaitIsSum(r, |r.slots|);
    assert r.slots[..|r.slots|] == r.slots;
    RingRound(r);
  }

  lemma RoundAt(k: Kernel, p: nat, t: nat)
    requires Running(k) && RingTicks(RingOf(k), p) == RingOf(k)
    ensures Ticks(k, p) == k && Ticks(k, p + t) == Ticks(k, t)
  {
    SameTime(k, p, 0);
    Repeats(Tick, k, p, t);
  }

  /** A round takes as long as all priorities together, and then everything is as at its start: the
      timer repeats it for ever. */
  lemma RoundRepeats(k: Kernel, t: nat)
    requires Running(k) && k.count == k.envs[k.sched[0]].pri
    ensures var p := Sum(RingOf(k).slots); Ticks(k, p) == k && Ticks(k, p + t) == Ticks(k, t)
  {
    RingTurns(k);
    assert RingOf(k).slots[0].pri == k.count by { assert Ready(k, k.sched[0]); }
    PeriodIs(RingOf(k));
    RoundAt(k, Sum(RingOf(k).slots), t);
  }

  /** The ring tells the whole state. */
  lemma SameTime(k: Kernel, s: nat, t: nat)
    requires Running(k) && RingTicks(RingOf(k), s) == RingTicks(RingOf(k), t)
    ensures Ticks(k, s) == Ticks(k, t)
  {
    TicksRefine(k, s);
    TicksRefine(k, t);
    BackAgain(Ticks(k, s), Ticks(k, t));
  }

  lemma BackAgain(k: Kernel, u: Kernel)
    requires Running(k) && Running(u) && RingOf(k) == RingOf(u)
    requires OnlyTurned(k, u)
    ensures u == k
  {
    SameRing(k, u);
  }

  lemma SameRing(k: Kernel, u: Kernel)
    requires RingOf(k) == RingOf(u)
    ensures k.sched == u.sched && k.count == u.count
  {
    assert |RingOf(k).slots| == |RingOf(u).slots|;
    forall i | 0 <= i < |k.sched| ensures k.sched[i] == u.sched[i] {
      assert RingOf(k).slots[i] == RingOf(u).slots[i];
    }
  }

  lemma ZeroTick(k: Kernel)
    requires IsRunnable(k, k.cur) && k.count <= 0
    ensures Tick(k) == k.(count := k.count - 1) && IsRunnable(Tick(k), k.cur)
  {
  }

  /** Priority 0 is no priority: once picked, such an environment is never preempted. */
  lemma {:induction false} ZeroRunsOn(k: Kernel, t: nat)
    requires IsRunnable(k, k.cur) && k.count <= 0
    ensures Ticks(k, t) == k.(count := k.count - t)
    decreases t
  {
    if t > 0 {
      ZeroRunsOn(k, t - 1);
      ZeroTick(Ticks(k, t - 1));
    }
  }
}
