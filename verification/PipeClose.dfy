/** End-of-pipe detection (user/lib/pipe.c, user/lib/fd.c): a pipe end learns that the other end is
    gone from two reference counts alone, while any number of environments close, dup, fork and die,
    interleaved at single system calls. */
module PipeClose {

  /** The descriptor table of one environment: the Fd page and the data page at each number. */
  datatype Local = Local(fd: map<nat, nat>, data: map<nat, nat>)

  /** The three pages of the pipe under consideration: read end, write end, buffer. */
  datatype Pipe = Pipe(rd: nat, wr: nat, buf: nat)

  /** Devices, as far as closing them goes: an empty file closes like the console. */
  datatype Dev = PipeDev | FileDev | ConsoleDev

  /** The mapping system calls that dup and close are made of, all on the caller's own space. */
  datatype Call = UnmapFd(n: nat) | UnmapData(n: nat) | MapData(o: nat, n: nat) | MapFd(o: nat, n: nat)

  /** _pipe_is_closed, between its loads: `runs` read, then the Fd count, then the buffer count. */
  datatype Check =
    | NoCheck
    | ReadRuns(n: nat, runs: nat)
    | ReadFd(n: nat, runs: nat, fdRef: nat)
    | ReadBoth(n: nat, runs: nat, fdRef: nat, pipeRef: nat)

  datatype Env = Env(tab: Local, job: seq<Call>, check: Check, runs: nat)

  /** `cur` runs; its `runs` counter went up when it was switched to. */
  datatype St = St(envs: map<nat, Env>, cur: nat)

  function Exec(t: Local, c: Call): Local {
    match c
    case UnmapFd(n) => t.(fd := t.fd - {n})
    case UnmapData(n) => t.(data := t.data - {n})
    case MapData(o, n) => if o in t.data then t.(data := t.data[n := t.data[o]]) else t
    case MapFd(o, n) => if o in t.fd then t.(fd := t.fd[n := t.fd[o]]) else t
  }

  /** close(n) for an open descriptor: dev_close, then fd_close. */
  function CloseCalls(dev: Dev, n: nat): seq<Call> {
    match dev
    case PipeDev => [UnmapFd(n), UnmapData(n), UnmapFd(n)]
    case FileDev => [UnmapData(n), UnmapFd(n)]
    case ConsoleDev => [UnmapFd(n)]
  }

  /** dup(o, n): close n if it is open, then map the data page, then the Fd page. */
  function DupCalls(t: Local, dev: Dev, o: nat, n: nat): seq<Call> {
    (if n in t.fd then CloseCalls(dev, n) else []) + [MapData(o, n), MapFd(o, n)]
  }

  /** The error path of dup. */
  function UndoCalls(n: nat): seq<Call> { [UnmapFd(n), UnmapData(n)] }

  datatype Event =
    | Switch(e: nat)
    | StartClose(dev: Dev, n: nat)
    | StartDup(dev: Dev, o: nat, n: nat)
    | DoCall                                  // the next system call of the running dup or close
    | AbortDup                                // its mem_map failed
    | Fork(child: nat)                        // fork or spawn, as one copy of the table
    | Open(n: nat, f: nat, d: nat)            // some other file at a closed number
    | Destroy(e: nat)
    | Exit(next: nat)                         // the running one destroys itself, and another runs
    | CheckStart(n: nat)
    | CheckFd
    | CheckBuf
    | CheckEnd                                // compare `runs`: answer, or retry

  predicate IsEnd(p: Pipe, f: nat) { f == p.rd || f == p.wr }

  // ----- Reference counts (module PageTables proves that pp_ref is this number) -----

  datatype Slot = Slot(e: nat, n: nat)

  ghost function Numbers(st: St): (s: set<Slot>)
    ensures forall x: Slot :: x in s <==>
      x.e in st.envs && (x.n in st.envs[x.e].tab.fd || x.n in st.envs[x.e].tab.data)
  {
    set e, n | e in st.envs && n in st.envs[e].tab.fd.Keys + st.envs[e].tab.data.Keys :: Slot(e, n)
  }

  predicate MapsFd(st: St, x: Slot, q: nat) {
    x.e in st.envs && x.n in st.envs[x.e].tab.fd && st.envs[x.e].tab.fd[x.n] == q
  }

  predicate MapsData(st: St, x: Slot, q: nat) {
    x.e in st.envs && x.n in st.envs[x.e].tab.data && st.envs[x.e].tab.data[x.n] == q
  }

  ghost function FdSlots(st: St, q: nat): (s: set<Slot>)
    ensures forall x :: x in s <==> MapsFd(st, x, q)
  {
    set x | x in Numbers(st) && MapsFd(st, x, q)
  }

  ghost function DataSlots(st: St, q: nat): (s: set<Slot>)
    ensures forall x :: x in s <==> MapsData(st, x, q)
  {
    set x | x in Numbers(st) && MapsData(st, x, q)
  }

  ghost function PageRef(st: St, q: nat): nat { |FdSlots(st, q)| + |DataSlots(st, q)| }

  ghost predicate Enabled(p: Pipe, st: St, ev: Event) {
    st.cur in st.envs &&
    var c := st.envs[st.cur];
    var free := c.job == [] && c.check.NoCheck?;
    match ev
    case Switch(e) => e in st.envs
    case StartClose(dev, n) => free && n in c.tab.fd && DevOk(p, c.tab.fd[n], dev)
    case StartDup(dev, o, n) =>
      free && o != n && o in c.tab.fd && (n in c.tab.fd ==> DevOk(p, c.tab.fd[n], dev))
    case DoCall => c.job != []
    case AbortDup =>
      (|c.job| == 2 && c.job[0].MapData? && c.job[1] == MapFd(c.job[0].o, c.job[0].n)) ||
      (|c.job| == 1 && c.job[0].MapFd?)
    case Fork(child) => free && child !in st.envs
    case Open(n, f, d) => free && n !in c.tab.fd && !IsEnd(p, f) && d != p.buf && f != p.buf && !IsEnd(p, d)
    case Destroy(e) => free && e in st.envs && e != st.cur
    case Exit(next) => next in st.envs && next != st.cur
    case CheckStart(n) => free && n in c.tab.fd && IsEnd(p, c.tab.fd[n])
    case CheckFd => c.check.ReadRuns?
    case CheckBuf => c.check.ReadFd?
    case CheckEnd => c.check.ReadBoth?
  }

  /** The device of a pipe end is the pipe device. */
  predicate DevOk(p: Pipe, f: nat, dev: Dev) { IsEnd(p, f) ==> dev.PipeDev? }

  function FdPage(t: Local, n: nat): nat { if n in t.fd then t.fd[n] else 0 }
  function DataPage(t: Local, n: nat): nat { if n in t.data then t.data[n] else 0 }

  ghost function Step(p: Pipe, st: St, ev: Event): St
    requires Enabled(p, st, ev)
  {
    var c := st.envs[st.cur];
    match ev
    case Switch(e) => St(st.envs[e := st.envs[e].(runs := st.envs[e].runs + 1)], e)
    case StartClose(dev, n) => st.(envs := st.envs[st.cur := c.(job := CloseCalls(dev, n))])
    case StartDup(dev, o, n) => st.(envs := st.envs[st.cur := c.(job := DupCalls(c.tab, dev, o, n))])
    case DoCall =>
      st.(envs := st.envs[st.cur := c.(tab := Exec(c.tab, c.job[0]), job := c.job[1..])])
    case AbortDup => st.(envs := st.envs[st.cur := c.(job := UndoCalls(c.job[0].n))])
    case Fork(child) => st.(envs := st.envs[child := Env(c.tab, [], NoCheck, 0)])
    case Open(n, f, d) =>
      st.(envs := st.envs[st.cur := c.(tab := Local(c.tab.fd[n := f], c.tab.data[n := d]))])
    case Destroy(e) => st.(envs := st.envs - {e})
    case Exit(next) => St((st.envs - {st.cur})[next := st.envs[next].(runs := st.envs[next].runs + 1)], next)
    case CheckStart(n) => st.(envs := st.envs[st.cur := c.(check := ReadRuns(n, c.runs))])
    case CheckFd =>
      var k := c.check;
      st.(envs := st.envs[st.cur := c.(check := ReadFd(k.n, k.runs, PageRef(st, FdPage(c.tab, k.n))))])
    case CheckBuf =>
      var k := c.check;
      st.(envs := st.envs[st.cur :=
        c.(check := ReadBoth(k.n, k.runs, k.fdRef, PageRef(st, DataPage(c.tab, k.n))))])
    case CheckEnd =>
      var k := c.check;
      st.(envs := st.envs[st.cur := c.(check := if k.runs == c.runs then NoCheck else ReadRuns(k.n, c.runs))])
  }

  /** At this event _pipe_is_closed returns, having found its end `f`. */
  ghost predicate Returns(p: Pipe, st: St, ev: Event, f: nat) {
    && Enabled(p, st, ev) && ev.CheckEnd?
    && var c := st.envs[st.cur];
       c.check.runs == c.runs && c.check.n in c.tab.fd && c.tab.fd[c.check.n] == f
  }

  /** What it returns. */
  predicate SaysClosed(st: St) {
    st.cur in st.envs && st.envs[st.cur].check.ReadBoth? &&
    st.envs[st.cur].check.fdRef == st.envs[st.cur].check.pipeRef
  }

  // ----- Invariant -----

  /** A mapped end has the buffer mapped beside it. */
  predicate Backed(p: Pipe, t: Local) {
    forall n :: n in t.fd && IsEnd(p, t.fd[n]) ==> n in t.data && t.data[n] == p.buf
  }

  /** The buffer is mapped only beside an end, and pages keep their roles. */
  predicate Settled(p: Pipe, t: Local) {
    && Backed(p, t)
    && (forall n :: n in t.data && t.data[n] == p.buf ==> n in t.fd && IsEnd(p, t.fd[n]))
  }

  predicate Roles(p: Pipe, t: Local) {
    && (forall n :: n in t.fd ==> t.fd[n] != p.buf)
    && (forall n :: n in t.data ==> !IsEnd(p, t.data[n]))
  }

  /** Every remaining system call of the job keeps ends backed, and the last leaves the table settled. */
  predicate Safe(p: Pipe, t: Local, job: seq<Call>)
    decreases |job|
  {
    Backed(p, t) && Roles(p, t) &&
    if job == [] then Settled(p, t) else Safe(p, Exec(t, job[0]), job[1..])
  }

  predicate Distinct(p: Pipe) { p.rd != p.wr && p.rd != p.buf && p.wr != p.buf }

  /** The counts an end has read are the counts now, unless it has been switched away since. */
  ghost predicate CheckOk(p: Pipe, st: St, e: nat)
    requires e in st.envs
  {
    var c := st.envs[e];
    var k := c.check;
    !k.NoCheck? ==>
      (&& c.job == [] && k.runs <= c.runs
       && k.n in c.tab.fd && IsEnd(p, c.tab.fd[k.n])
       && (st.cur == e && k.runs == c.runs ==>
            (&& (k.ReadFd? || k.ReadBoth? ==> k.fdRef == PageRef(st, c.tab.fd[k.n]))
             && (k.ReadBoth? ==> k.pipeRef == PageRef(st, p.buf)))))
  }

  ghost predicate Inv(p: Pipe, st: St) {
    && Distinct(p)
    && (forall e :: e in st.envs ==> Safe(p, st.envs[e].tab, st.envs[e].job) && CheckOk(p, st, e))
  }

  // ----- Jobs are safe from the start -----

  lemma CloseSafe(p: Pipe, t: Local, dev: Dev, n: nat)
    requires Settled(p, t) && Roles(p, t) && n in t.fd && DevOk(p, t.fd[n], dev)
    ensures Safe(p, t, CloseCalls(dev, n))
    ensures Settled(p, After(t, CloseCalls(dev, n))) && Roles(p, After(t, CloseCalls(dev, n)))
    ensures n !in After(t, CloseCalls(dev, n)).fd
    ensures forall m :: m != n ==> (m in After(t, CloseCalls(dev, n)).fd <==> m in t.fd)
  {
    var t1 := Exec(t, CloseCalls(dev, n)[0]);
    match dev
    case PipeDev =>
      var t2 := Exec(t1, UnmapData(n));
      var t3 := Exec(t2, UnmapFd(n));
      assert CloseCalls(dev, n)[1..] == [UnmapData(n), UnmapFd(n)];
      assert [UnmapData(n), UnmapFd(n)][1..] == [UnmapFd(n)];
      assert Safe(p, t3, []);
      assert Safe(p, t2, [UnmapFd(n)]);
      assert Safe(p, t1, [UnmapData(n), UnmapFd(n)]);
      assert After(t2, [UnmapFd(n)]) == t3;
    case FileDev =>
      var t2 := Exec(t1, UnmapFd(n));
      assert CloseCalls(dev, n)[1..] == [UnmapFd(n)];
      assert Safe(p, t2, []);
      assert Safe(p, t1, [UnmapFd(n)]);
      assert After(t1, [UnmapFd(n)]) == t2;
    case ConsoleDev =>
      assert Safe(p, t1, []);
  }

  function After(t: Local, job: seq<Call>): Local
    decreases |job|
  {
    if job == [] then t else After(Exec(t, job[0]), job[1..])
  }

  lemma {:induction false} SafeThen(p: Pipe, t: Local, a: seq<Call>, b: seq<Call>)
    requires Safe(p, t, a) && Safe(p, After(t, a), b)
    ensures Safe(p, t, a + b)
    decreases |a|
  {
    if a == [] {
      assert a + b == b;
    } else {
      assert (a + b)[1..] == a[1..] + b;
      SafeThen(p, Exec(t, a[0]), a[1..], b);
    }
  }

  /** Data page before Fd page: dup keeps ends backed at every step. */
  lemma CopySafe(p: Pipe, t: Local, o: nat, n: nat)
    requires Settled(p, t) && Roles(p, t) && o != n && o in t.fd && n !in t.fd
    ensures Safe(p, t, [MapData(o, n), MapFd(o, n)])
  {
    var t1 := Exec(t, MapData(o, n));
    var t2 := Exec(t1, MapFd(o, n));
    assert [MapData(o, n), MapFd(o, n)][1..] == [MapFd(o, n)];
    assert Safe(p, t2, []);
    assert Safe(p, t1, [MapFd(o, n)]);
  }

  lemma DupSafe(p: Pipe, t: Local, dev: Dev, o: nat, n: nat)
    requires Settled(p, t) && Roles(p, t) && o != n && o in t.fd
    requires n in t.fd ==> DevOk(p, t.fd[n], dev)
    ensures Safe(p, t, DupCalls(t, dev, o, n))
  {
    if n in t.fd {
      CloseSafe(p, t, dev, n);
      CopySafe(p, After(t, CloseCalls(dev, n)), o, n);
      SafeThen(p, t, CloseCalls(dev, n), [MapData(o, n), MapFd(o, n)]);
    } else {
      CopySafe(p, t, o, n);
      assert DupCalls(t, dev, o, n) == [MapData(o, n), MapFd(o, n)];
    }
  }

  /** The tables agree except at number `n`. */
  ghost predicate SameBut(t: Local, t': Local, n: nat) {
    forall m :: m != n ==>
      (&& (m in t.fd <==> m in t'.fd) && (m in t.data <==> m in t'.data)
       && (m in t.fd ==> t.fd[m] == t'.fd[m]) && (m in t.data ==> t.data[m] == t'.data[m]))
  }

  lemma UndoSafe(p: Pipe, t: Local, job: seq<Call>)
    requires Safe(p, t, job)
    requires (|job| == 2 && job[0].MapData? && job[1] == MapFd(job[0].o, job[0].n)) ||
             (|job| == 1 && job[0].MapFd?)
    ensures Safe(p, t, UndoCalls(job[0].n))
  {
    var n := job[0].n;
    var u := Exec(t, job[0]);
    assert Safe(p, u, job[1..]);
    var last := if |job| == 1 then u else Exec(u, job[1]);
    if |job| == 2 {
      assert job[1..][0] == job[1] && job[1..][1..] == [];
      assert Safe(p, Exec(u, job[1]), []);
    } else {
      assert job[1..] == [];
    }
    assert Settled(p, last) && SameBut(t, last, n);
    var t1 := Exec(t, UnmapFd(n));
    var t2 := Exec(t1, UnmapData(n));
    assert UndoCalls(n)[1..] == [UnmapData(n)];
    assert SameBut(t2, last, n) && n !in t2.fd && n !in t2.data;
    assert Safe(p, t2, []);
    assert Safe(p, t1, [UnmapData(n)]);
  }

  // ----- Steps -----

  lemma SameTables(st: St, st': St, q: nat)
    requires st'.envs.Keys == st.envs.Keys && forall e :: e in st.envs ==> st'.envs[e].tab == st.envs[e].tab
    ensures PageRef(st', q) == PageRef(st, q)
  {
    assert FdSlots(st', q) == FdSlots(st, q) && DataSlots(st', q) == DataSlots(st, q);
  }

  /** What an event does to the tables and jobs stays within the protocol. */
  lemma StepSafe(p: Pipe, st: St, ev: Event, e: nat)
    requires Inv(p, st) && Enabled(p, st, ev) && e in Step(p, st, ev).envs
    ensures Safe(p, Step(p, st, ev).envs[e].tab, Step(p, st, ev).envs[e].job)
  {
    var c := st.envs[st.cur];
    assert Safe(p, c.tab, c.job);
    if e in st.envs {
      assert Safe(p, st.envs[e].tab, st.envs[e].job);
    }
    match ev {
      case StartClose(dev, n) => CloseSafe(p, c.tab, dev, n);
      case StartDup(dev, o, n) => DupSafe(p, c.tab, dev, o, n);
      case AbortDup => UndoSafe(p, c.tab, c.job);
      case _ =>
    }
  }

  /** The loads of a check see the counts as they are; whoever runs anew knows that time has passed. */
  lemma StepChecks(p: Pipe, st: St, ev: Event, e: nat)
    requires Inv(p, st) && Enabled(p, st, ev) && e in Step(p, st, ev).envs
    ensures CheckOk(p, Step(p, st, ev), e)
  {
    var st' := Step(p, st, ev);
    assert CheckOk(p, st, st.cur);
    if e in st.envs {
      assert CheckOk(p, st, e);
    }
    if ev.CheckFd? || ev.CheckBuf? {
      var c := st.envs[st.cur];
      SameTables(st, st', c.tab.fd[c.check.n]);
      SameTables(st, st', p.buf);
    }
  }

  lemma StepKeeps(p: Pipe, st: St, ev: Event)
    requires Inv(p, st) && Enabled(p, st, ev)
    ensures Inv(p, Step(p, st, ev))
  {
    var st' := Step(p, st, ev);
    forall e | e in st'.envs ensures Safe(p, st'.envs[e].tab, st'.envs[e].job) && CheckOk(p, st', e) {
      StepSafe(p, st, ev, e);
      StepChecks(p, st, ev, e);
    }
  }

  // ----- What the counts say -----

  lemma EndHasNoDataSlots(p: Pipe, st: St, f: nat)
    requires Inv(p, st) && IsEnd(p, f)
    ensures PageRef(st, f) == |FdSlots(st, f)| && PageRef(st, p.buf) == |DataSlots(st, p.buf)|
  {
    forall x ensures x !in DataSlots(st, f) && x !in FdSlots(st, p.buf) {
      if x.e in st.envs {
        assert Safe(p, st.envs[x.e].tab, st.envs[x.e].job);
      }
    }
    assert DataSlots(st, f) == {} && FdSlots(st, p.buf) == {};
  }

  /** The buffer is referenced at least as often as both ends together. */
  lemma BufferOutnumbersEnds(p: Pipe, st: St)
    requires Inv(p, st)
    ensures PageRef(st, p.buf) >= PageRef(st, p.rd) + PageRef(st, p.wr)
  {
    EndHasNoDataSlots(p, st, p.rd);
    EndHasNoDataSlots(p, st, p.wr);
    var ends := FdSlots(st, p.rd) + FdSlots(st, p.wr);
    forall x | x in ends ensures x in DataSlots(st, p.buf) {
      assert Safe(p, st.envs[x.e].tab, st.envs[x.e].job);
    }
    assert FdSlots(st, p.rd) * FdSlots(st, p.wr) == {};
    SubsetSize(ends, DataSlots(st, p.buf));
  }

  lemma {:induction false} SubsetSize(a: set<Slot>, b: set<Slot>)
    requires a <= b
    ensures |a| <= |b|
  {
    assert b == a + (b - a);
  }

  /** Nobody is half way through a dup or a close. */
  predicate Quiet(st: St) {
    forall e :: e in st.envs ==> st.envs[e].job == []
  }

  lemma QuietCounts(p: Pipe, st: St)
    requires Inv(p, st) && Quiet(st)
    ensures PageRef(st, p.buf) == PageRef(st, p.rd) + PageRef(st, p.wr)
  {
    BufferOutnumbersEnds(p, st);
    EndHasNoDataSlots(p, st, p.rd);
    EndHasNoDataSlots(p, st, p.wr);
    var ends := FdSlots(st, p.rd) + FdSlots(st, p.wr);
    forall x | x in DataSlots(st, p.buf) ensures x in ends {
      assert Safe(p, st.envs[x.e].tab, st.envs[x.e].job);
    }
    assert FdSlots(st, p.rd) * FdSlots(st, p.wr) == {};
    SubsetSize(DataSlots(st, p.buf), ends);
  }

  function Other(p: Pipe, f: nat): nat { if f == p.rd then p.wr else p.rd }

  /** The retry on env_runs makes the two loads one snapshot. */
  lemma CountsAreASnapshot(p: Pipe, st: St, ev: Event, f: nat)
    requires Inv(p, st) && Returns(p, st, ev, f)
    ensures IsEnd(p, f)
    ensures SaysClosed(st) <==> PageRef(st, f) == PageRef(st, p.buf)
  {
    assert CheckOk(p, st, st.cur);
  }

  /** An end that is told "closed" has lost its other end: no environment maps it. */
  lemma ClosedMeansGone(p: Pipe, st: St, ev: Event, f: nat)
    requires Inv(p, st) && Returns(p, st, ev, f) && SaysClosed(st)
    ensures FdSlots(st, Other(p, f)) == {}
  {
    CountsAreASnapshot(p, st, ev, f);
    BufferOutnumbersEnds(p, st);
    EndHasNoDataSlots(p, st, Other(p, f));
  }

  /** With nothing in flight the answer is exact. */
  lemma QuietAnswerIsExact(p: Pipe, st: St, ev: Event, f: nat)
    requires Inv(p, st) && Returns(p, st, ev, f) && Quiet(st)
    ensures SaysClosed(st) <==> FdSlots(st, Other(p, f)) == {}
  {
    CountsAreASnapshot(p, st, ev, f);
    QuietCounts(p, st);
    EndHasNoDataSlots(p, st, Other(p, f));
  }

  // ----- Whole runs -----

  ghost predicate Possible(p: Pipe, st: St, evs: seq<Event>)
    decreases |evs|
  {
    evs == [] || (Enabled(p, st, evs[0]) && Possible(p, Step(p, st, evs[0]), evs[1..]))
  }

  ghost function Run(p: Pipe, st: St, evs: seq<Event>): St
    requires Possible(p, st, evs)
    decreases |evs|
  {
    if evs == [] then st else Run(p, Step(p, st, evs[0]), evs[1..])
  }

  /** The answer comes when env_runs did not change, and then the check is over; otherwise it is begun
      anew, and comes after one more round that is not interrupted. */
  lemma AnswerComes(p: Pipe, st: St)
    requires Inv(p, st) && Enabled(p, st, CheckEnd)
    ensures var c := st.envs[st.cur];
      c.check.n in c.tab.fd && if c.check.runs == c.runs
        then Returns(p, st, CheckEnd, c.tab.fd[c.check.n]) && Step(p, st, CheckEnd).envs[st.cur].check == NoCheck
        else Possible(p, st, [CheckEnd, CheckFd, CheckBuf])
             && Returns(p, Run(p, st, [CheckEnd, CheckFd, CheckBuf]), CheckEnd, c.tab.fd[c.check.n])
  {
    assert CheckOk(p, st, st.cur);
    var c := st.envs[st.cur];
    if c.check.runs != c.runs {
      var s1 := Step(p, st, CheckEnd);
      var s2 := Step(p, s1, CheckFd);
      var s3 := Step(p, s2, CheckBuf);
      assert [CheckEnd, CheckFd, CheckBuf][1..] == [CheckFd, CheckBuf];
      assert [CheckFd, CheckBuf][1..] == [CheckBuf] && [CheckBuf][1..] == [];
      assert Possible(p, s3, []) && Possible(p, s2, [CheckBuf]) && Possible(p, s1, [CheckFd, CheckBuf]);
      assert Run(p, s2, [CheckBuf]) == s3 && Run(p, s1, [CheckFd, CheckBuf]) == s3;
    }
  }

  predicate Lacks(t: Local, f: nat) { forall n :: n in t.fd ==> t.fd[n] != f }

  lemma GoneIsLacking(st: St, f: nat)
    ensures FdSlots(st, f) == {} <==> forall e :: e in st.envs ==> Lacks(st.envs[e].tab, f)
  {
    if FdSlots(st, f) == {} {
      forall e, n | e in st.envs && n in st.envs[e].tab.fd ensures st.envs[e].tab.fd[n] != f {
        assert !MapsFd(st, Slot(e, n), f);
      }
    }
  }

  /** An end that nobody maps never comes back. */
  lemma GoneStaysGone(p: Pipe, st: St, ev: Event, f: nat)
    requires Enabled(p, st, ev) && IsEnd(p, f) && FdSlots(st, f) == {}
    ensures FdSlots(Step(p, st, ev), f) == {}
  {
    GoneIsLacking(st, f);
    assert Lacks(st.envs[st.cur].tab, f);
    GoneIsLacking(Step(p, st, ev), f);
  }

  /** Over every interleaving: once an end has been told "closed", the other end stays unmapped. */
  lemma {:induction false} ClosedIsForever(p: Pipe, st: St, evs: seq<Event>, f: nat)
    requires Inv(p, st) && Possible(p, st, evs) && IsEnd(p, f) && FdSlots(st, f) == {}
    ensures Inv(p, Run(p, st, evs)) && FdSlots(Run(p, st, evs), f) == {}
    decreases |evs|
  {
    if evs != [] {
      StepKeeps(p, st, evs[0]);
      GoneStaysGone(p, st, evs[0], f);
      ClosedIsForever(p, Step(p, st, evs[0]), evs[1..], f);
    }
  }

  lemma {:induction false} RunKeeps(p: Pipe, st: St, evs: seq<Event>)
    requires Inv(p, st) && Possible(p, st, evs)
    ensures Inv(p, Run(p, st, evs))
    decreases |evs|
  {
    if evs != [] {
      StepKeeps(p, st, evs[0]);
      RunKeeps(p, Step(p, st, evs[0]), evs[1..]);
    }
  }

  // ----- How a pipe comes to be -----

  /** The table has none of the pipe's pages, but perhaps at numbers `a` and `b`. */
  predicate Without(p: Pipe, t: Local, a: nat, b: nat) {
    && (forall n :: n in t.fd && n != a && n != b ==> !IsEnd(p, t.fd[n]) && t.fd[n] != p.buf)
    && (forall n :: n in t.data && n != a && n != b ==> !IsEnd(p, t.data[n]) && t.data[n] != p.buf)
  }

  /** The table has none of the pipe's pages. */
  predicate Lacking(p: Pipe, t: Local) {
    && (forall n :: n in t.fd ==> !IsEnd(p, t.fd[n]) && t.fd[n] != p.buf)
    && (forall n :: n in t.data ==> !IsEnd(p, t.data[n]) && t.data[n] != p.buf)
  }

  /** While pipe() allocates and maps, one call after the other, the pages are only its caller's, at the
      two numbers it was given, and nobody asks about the pipe. */
  predicate Building(p: Pipe, st: St, e: nat, a: nat, b: nat) {
    Distinct(p) && forall x :: x in st.envs ==>
      st.envs[x].check.NoCheck?
      && if x == e then st.envs[x].job == [] && Without(p, st.envs[x].tab, a, b) else Lacking(p, st.envs[x].tab)
  }

  /** Whatever the others do meanwhile leaves it so. */
  lemma BuildingKeeps(p: Pipe, st: St, ev: Event, e: nat, a: nat, b: nat)
    requires Building(p, st, e, a, b) && Enabled(p, st, ev) && (st.cur != e || ev.Switch?)
    requires ev.Fork? ==> ev.child != e
    ensures Building(p, Step(p, st, ev), e, a, b)
  {
  }

  lemma {:induction false} LackingSafe(p: Pipe, t: Local, job: seq<Call>)
    requires Lacking(p, t)
    ensures Safe(p, t, job)
    decreases |job|
  {
    if job != [] {
      LackingSafe(p, Exec(t, job[0]), job[1..]);
    }
  }

  /** When pipe() has mapped the read end at `a`, the write end at `b` and the buffer beside both, the
      protocol holds, whatever else goes on in the system. */
  lemma PipeEstablishes(p: Pipe, st: St, e: nat, a: nat, b: nat)
    requires Building(p, st, e, a, b) && a != b && e in st.envs
    requires var t := st.envs[e].tab; a in t.fd && b in t.fd && t.fd[a] == p.rd && t.fd[b] == p.wr
    requires var t := st.envs[e].tab; a in t.data && b in t.data && t.data[a] == t.data[b] == p.buf
    ensures Inv(p, st)
  {
    forall x | x in st.envs ensures Safe(p, st.envs[x].tab, st.envs[x].job) {
      if x != e {
        LackingSafe(p, st.envs[x].tab, st.envs[x].job);
      }
    }
  }
}
