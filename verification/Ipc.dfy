/** Rendezvous messages (sys_ipc_recv and sys_ipc_try_send, with ipc_recv of user/lib/ipc.c): what is
    sent is what is read. */
module Ipc {
  import Mmu
  import opened Basics
  import opened Envs
  import opened EnvInvariants
  import opened EnvRuns
  import opened EnvCalls

  datatype Msg = Msg(value: nat, from: nat, perm: bv12)

  function MsgOf(e: Env): Msg { Msg(e.value, e.from, e.perm) }

  /** Of an environment: how often it entered sys_ipc_recv, the messages that sys_ipc_try_send put
      into its fields, and those that it read from there. */
  datatype Log = Log(recvs: nat, sent: seq<Msg>, got: seq<Msg>)

  const NEW := Log(0, [], [])

  /** `open` are the environments that called sys_ipc_recv and have not yet read the message. */
  datatype Mail = Mail(k: Kernel, open: set<nat>, logs: seq<Log>)

  /** A kernel entry, or ipc_recv reading the fields after its system call has returned. */
  datatype Event = Call(op: Op) | Read

  // ----- What a call does to messages -----

  function Target(k: Kernel, op: Op): Option<nat>
    requires Sane(k) && (op.Send? || op.Kill? ==> k.cur.Some?)
  {
    match op
    case Send(envid, _, srcva, _, _) =>
      var r := Envid2env(k, envid, false);
      if (srcva == 0 || !Illegal(srcva)) && r.Ok? && k.envs[r.value].recving then Some(r.value) else None
    case _ => None
  }

  function Killed(k: Kernel, op: Op): Option<nat>
    requires Sane(k) && (op.Kill? ==> k.cur.Some?)
  {
    match op
    case Kill(envid) => var r := Envid2env(k, envid, true); if r.Ok? then Some(r.value) else None
    case _ => None
  }

  predicate Receives(op: Op) { op.Recv? && (op.dstva == 0 || !Illegal(op.dstva)) }

  ghost predicate CanCall(k: Kernel, op: Op) { Inv(k) && Allowed(k, op) && Step(k, op).Ret? }

  /** Nothing about messages changed, and who lived lives. */
  ghost predicate Same(was: Env, now: Env) {
    MsgOf(now) == MsgOf(was) && now.recving == was.recving && (was.status != Free ==> now.status != Free)
  }

  lemma BirthFields(k: Kernel, op: Op, e: nat)
    requires CanCall(k, op) && e < NENV && (op.Create? || op.Fork?)
    ensures Same(k.envs[e], Step(k, op).k.envs[e])
  {
    if op.Create? {
      CreateIs(k, op.pri);
    } else if k.free != [] {
      FreeInRange(k);
      ExoforkIs(k);
    }
  }

  lemma StatusFields(k: Kernel, op: Op, e: nat)
    requires CanCall(k, op) && e < NENV && op.Status?
    ensures Same(k.envs[e], Step(k, op).k.envs[e])
  {
    var r := Envid2env(k, op.envid, true);
    if r.Ok? && (op.status == ENV_RUNNABLE || op.status == ENV_NOT_RUNNABLE) {
      SetFields(k, r.value, op.status == ENV_RUNNABLE, e);
    }
  }

  lemma SetFields(k: Kernel, t: nat, run: bool, e: nat)
    requires |k.envs| == NENV && t < NENV && e < NENV
    ensures var u := SetStatus(k, t, run); var o := Schedule(u, true);
      |u.envs| == NENV && Same(k.envs[e], u.envs[e]) && (o.Ret? ==> o.k.envs == u.envs)
  {
  }

  lemma KillFields(k: Kernel, op: Op, e: nat)
    requires CanCall(k, op) && e < NENV && op.Kill? && Killed(k, op) != Some(e)
    ensures Same(k.envs[e], Step(k, op).k.envs[e])
  {
  }

  lemma RecvFields(k: Kernel, op: Op, e: nat)
    requires CanCall(k, op) && e < NENV && op.Recv?
    ensures var was, now := k.envs[e], Step(k, op).k.envs[e];
      if Receives(op) && k.cur == Some(e) then now == was.(recving := true, dstva := op.dstva, status := NotRunnable)
      else now == was
  {
  }

  lemma SendFields(k: Kernel, op: Op, e: nat)
    requires CanCall(k, op) && e < NENV && op.Send?
    ensures var was, now := k.envs[e], Step(k, op).k.envs[e];
      if Target(k, op) == Some(e) then
        now == was.(value := op.value, from := k.envs[k.cur.value].id, perm := Mmu.PTE_V | op.perm,
                    recving := false, status := Runnable)
      else now == was
  {
  }

  // ----- The log -----

  /** The message that a call of sys_ipc_try_send is asked to send. */
  function Sent(k: Kernel, op: Op): Msg
    requires op.Send? && k.cur.Some? && k.cur.value < |k.envs|
  {
    Msg(op.value, k.envs[k.cur.value].id, Mmu.PTE_V | op.perm)
  }

  /** The log after an event, in the kernel state that results. */
  function After(m: Mail, ev: Event, u: Kernel): Mail
    requires Sane(m.k) && |m.logs| == NENV && |u.envs| == NENV
    requires ev.Call? && (ev.op.Send? || ev.op.Kill?) ==> m.k.cur.Some?
  {
    match ev
    case Read =>
      if m.k.cur.Some? && m.k.cur.value in m.open then
        var c := m.k.cur.value;
        Mail(u, m.open - {c}, m.logs[c := m.logs[c].(got := m.logs[c].got + [MsgOf(m.k.envs[c])])])
      else m
    case Call(op) =>
      if Target(m.k, op).Some? then
        var e := Target(m.k, op).value;
        Mail(u, m.open, m.logs[e := m.logs[e].(sent := m.logs[e].sent + [Sent(m.k, op)])])
      else if Killed(m.k, op).Some? then
        Mail(u, m.open - {Killed(m.k, op).value}, m.logs[Killed(m.k, op).value := NEW])
      else if Receives(op) && m.k.cur.Some? then
        var c := m.k.cur.value;
        Mail(u, m.open + {c}, m.logs[c := m.logs[c].(recvs := m.logs[c].recvs + 1)])
      else m.(k := u)
  }

  /** ipc_recv reads before it is called again. */
  ghost predicate Can(m: Mail, ev: Event) {
    match ev
    case Call(op) => CanCall(m.k, op) && (op.Recv? ==> m.k.cur.value !in m.open)
    case Read => Inv(m.k) && m.k.cur.Some?
  }

  ghost function Next(m: Mail, ev: Event): Mail
    requires Can(m, ev) && |m.logs| == NENV
  {
    match ev
    case Call(op) =>
      StepKeeps(m.k, op);
      After(m, ev, Step(m.k, op).k)
    case Read => After(m, ev, m.k)
  }

  /** Of one environment: a receive is open from the call to the read; in between the message is sent,
      once, and stays; and outside of that all that was sent has been read. */
  ghost predicate Delivered(e: Env, open: bool, log: Log) {
    && (e.recving ==> open)
    && (open ==> e.status != Free)
    && log.recvs == |log.sent| + (if e.recving then 1 else 0)
    && log.sent == if open && !e.recving then log.got + [MsgOf(e)] else log.got
  }

  ghost predicate MailOk(m: Mail) {
    Inv(m.k) && |m.logs| == NENV && forall e: nat :: e < NENV ==> Delivered(m.k.envs[e], e in m.open, m.logs[e])
  }

  lemma StartOk(k: Kernel)
    requires Inv(k) && forall e: nat :: e < NENV ==> k.envs[e].status == Free
    ensures MailOk(Mail(k, {}, seq(NENV, _ => NEW)))
  {
  }

  lemma ReadKeeps(m: Mail)
    requires MailOk(m) && Can(m, Read)
    ensures MailOk(Next(m, Read))
  {
    assert m.k.cur.value in m.k.sched;
  }

  lemma SendKeepsMail(m: Mail, op: Op)
    requires MailOk(m) && Can(m, Call(op)) && op.Send?
    ensures MailOk(Next(m, Call(op)))
  {
    StepKeeps(m.k, op);
    forall e: nat | e < NENV
      ensures Delivered(Next(m, Call(op)).k.envs[e], e in Next(m, Call(op)).open, Next(m, Call(op)).logs[e])
    {
      SendFields(m.k, op, e);
    }
  }

  lemma RecvKeepsMail(m: Mail, op: Op)
    requires MailOk(m) && Can(m, Call(op)) && op.Recv?
    ensures MailOk(Next(m, Call(op)))
  {
    StepKeeps(m.k, op);
    assert m.k.cur.value in m.k.sched;
    forall e: nat | e < NENV
      ensures Delivered(Next(m, Call(op)).k.envs[e], e in Next(m, Call(op)).open, Next(m, Call(op)).logs[e])
    {
      RecvFields(m.k, op, e);
    }
  }

  lemma KillKeepsMail(m: Mail, op: Op)
    requires MailOk(m) && Can(m, Call(op)) && op.Kill?
    ensures MailOk(Next(m, Call(op)))
  {
    StepKeeps(m.k, op);
    forall e: nat | e < NENV
      ensures Delivered(Next(m, Call(op)).k.envs[e], e in Next(m, Call(op)).open, Next(m, Call(op)).logs[e])
    {
      if Killed(m.k, op) != Some(e) {
        KillFields(m.k, op, e);
      } else {
        KilledFields(m.k, op, e);
      }
    }
  }

  lemma KilledFields(k: Kernel, op: Op, e: nat)
    requires CanCall(k, op) && e < NENV && op.Kill? && Killed(k, op) == Some(e)
    ensures !Step(k, op).k.envs[e].recving
  {
  }

  lemma OtherFields(k: Kernel, op: Op, e: nat)
    requires CanCall(k, op) && e < NENV && !op.Kill? && !op.Recv? && !op.Send?
    ensures Same(k.envs[e], Step(k, op).k.envs[e])
  {
    if op.Create? || op.Fork? {
      BirthFields(k, op, e);
    } else if op.Status? {
      StatusFields(k, op, e);
    }
  }

  lemma OtherKeepsMail(m: Mail, op: Op)
    requires MailOk(m) && Can(m, Call(op)) && !op.Kill? && !op.Recv? && !op.Send?
    ensures MailOk(Next(m, Call(op)))
  {
    StepKeeps(m.k, op);
    var u := Next(m, Call(op));
    assert u == m.(k := Step(m.k, op).k);
    forall e: nat | e < NENV ensures Delivered(u.k.envs[e], e in u.open, u.logs[e]) {
      OtherFields(m.k, op, e);
    }
  }

  /** Every event keeps that. */
  lemma EventKeeps(m: Mail, ev: Event)
    requires MailOk(m) && Can(m, ev)
    ensures MailOk(Next(m, ev))
  {
    match ev
    case Read => ReadKeeps(m);
    case Call(op) =>
      if op.Send? {
        SendKeepsMail(m, op);
      } else if op.Recv? {
        RecvKeepsMail(m, op);
      } else if op.Kill? {
        KillKeepsMail(m, op);
      } else {
        OtherKeepsMail(m, op);
      }
  }

  ghost predicate AllCan(m: Mail, evs: seq<Event>)
    decreases |evs|
  {
    evs == [] || (|m.logs| == NENV && Can(m, evs[0]) && AllCan(Next(m, evs[0]), evs[1..]))
  }

  ghost function Run(m: Mail, evs: seq<Event>): Mail
    requires AllCan(m, evs)
    decreases |evs|
  {
    if evs == [] then m else Run(Next(m, evs[0]), evs[1..])
  }

  /** In any run an environment reads the messages that were sent to it, each once and in order, with
      at most the latest still unread; and as many were sent as it called receive, but for a receive
      that it is blocked in. */
  lemma {:induction false} ReadIsSent(m: Mail, evs: seq<Event>, e: nat)
    requires MailOk(m) && AllCan(m, evs) && e < NENV
    ensures var u := Run(m, evs);
      && |u.logs| == NENV && |u.k.envs| == NENV
      && var log := u.logs[e];
      && log.got <= log.sent && |log.sent| <= |log.got| + 1
      && log.recvs == |log.sent| + (if u.k.envs[e].recving then 1 else 0)
      && (|log.got| < |log.sent| ==> log.sent == log.got + [MsgOf(u.k.envs[e])])
    decreases |evs|
  {
    if evs != [] {
      EventKeeps(m, evs[0]);
      ReadIsSent(Next(m, evs[0]), evs[1..], e);
    } else {
      assert Delivered(m.k.envs[e], e in m.open, m.logs[e]);
    }
  }

  /** From boot on. */
  lemma ReadIsSentFromBoot(evs: seq<Event>, e: nat)
    requires AllCan(Mail(Initial(), {}, seq(NENV, _ => NEW)), evs) && e < NENV
    ensures var u := Run(Mail(Initial(), {}, seq(NENV, _ => NEW)), evs);
      |u.logs| == NENV && u.logs[e].got <= u.logs[e].sent && |u.logs[e].sent| <= |u.logs[e].got| + 1
  {
    InitialInv();
    StartOk(Initial());
    ReadIsSent(Mail(Initial(), {}, seq(NENV, _ => NEW)), evs, e);
  }

  // ----- What the senders were told -----

  /** The mapping of a page does not answer with the other errors of a send. */
  predicate PageCodes(evs: seq<Event>) {
    forall i :: 0 <= i < |evs| && evs[i].Call? && evs[i].op.Send? ==>
      evs[i].op.page != Err(E_BAD_ENV) && evs[i].op.page != Err(E_IPC_NOT_RECV)
  }

  /** A send to `e` that came back from the end of the call: with 0, or with what mapping the page came to. */
  ghost predicate Acks(k: Kernel, op: Op, e: nat)
    requires CanCall(k, op) && op.Send?
  {
    && Names(k, op.envid, e) && (op.srcva == 0 || UTEMP <= op.srcva < UTOP)
    && Step(k, op).r == if op.srcva == 0 then Ok(0) else op.page
  }

  lemma AcksIffTarget(k: Kernel, op: Op, e: nat)
    requires CanCall(k, op) && op.Send? && op.page != Err(E_BAD_ENV) && op.page != Err(E_IPC_NOT_RECV)
    ensures Acks(k, op, e) <==> Target(k, op) == Some(e)
    ensures Step(k, op).r.Ok? ==> Target(k, op).Some? && Acks(k, op, Target(k, op).value)
  {
    EnvidNames(k, op.envid, false, e);
    SendAnswers(k, op.envid, op.value, op.srcva, op.perm, op.page);
    if Target(k, op).Some? {
      EnvidNames(k, op.envid, false, Target(k, op).value);
    }
  }

  /** A send that is answered with 0 is in the log of the one that it named. */
  lemma OkIsSent(m: Mail, op: Op)
    requires MailOk(m) && Can(m, Call(op)) && op.Send? && Step(m.k, op).r.Ok?
    requires op.page != Err(E_BAD_ENV) && op.page != Err(E_IPC_NOT_RECV)
    ensures exists e: nat :: (e < NENV && Names(m.k, op.envid, e)
      && Next(m, Call(op)).logs == m.logs[e := m.logs[e].(sent := m.logs[e].sent + [Sent(m.k, op)])])
  {
    var t := Target(m.k, op);
    AcksIffTarget(m.k, op, if t.Some? then t.value else 0);
    assert Names(m.k, op.envid, t.value);
  }

  /** `acc` with the messages of a run that their senders know to be delivered to `e`; a destroyed
      environment begins anew. */
  ghost function Acked(m: Mail, evs: seq<Event>, e: nat, acc: seq<Msg>): seq<Msg>
    requires AllCan(m, evs)
    decreases |evs|
  {
    if evs == [] then acc
    else
      Acked(Next(m, evs[0]), evs[1..], e,
        match evs[0]
        case Read => acc
        case Call(op) =>
          if op.Send? && Acks(m.k, op, e) then acc + [Sent(m.k, op)]
          else if op.Kill? && Handles(m.k, op.envid, e) then []
          else acc)
  }

  /** In any run the messages delivered to an environment are those whose senders were told so, in that
      order.  (A sender also reads an error where the message went without its page.) */
  lemma {:induction false} AckedIsSent(m: Mail, evs: seq<Event>, e: nat)
    requires MailOk(m) && AllCan(m, evs) && PageCodes(evs) && e < NENV
    ensures |Run(m, evs).logs| == NENV
    ensures Run(m, evs).logs[e].sent == Acked(m, evs, e, m.logs[e].sent)
    decreases |evs|
  {
    if evs != [] {
      EventKeeps(m, evs[0]);
      AckedNext(m, evs[0], e);
      assert PageCodes(evs[1..]);
      AckedIsSent(Next(m, evs[0]), evs[1..], e);
    }
  }

  lemma AckedNext(m: Mail, ev: Event, e: nat)
    requires MailOk(m) && Can(m, ev) && PageCodes([ev]) && e < NENV
    ensures Next(m, ev).logs[e].sent ==
      match ev
      case Read => m.logs[e].sent
      case Call(op) =>
        if op.Send? && Acks(m.k, op, e) then m.logs[e].sent + [Sent(m.k, op)]
        else if op.Kill? && Handles(m.k, op.envid, e) then []
        else m.logs[e].sent
  {
    if ev.Call? && ev.op.Send? {
      assert [ev][0] == ev;
      AcksIffTarget(m.k, ev.op, e);
    } else if ev.Call? && ev.op.Kill? {
      EnvidNames(m.k, ev.op.envid, true, e);
    }
  }
}
