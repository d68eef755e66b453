/** fork seen by a pipe: user/lib/fork.c copies page by page in ascending order, and the Fd table lies below
    the data windows, so that there are moments at which the child has descriptors without their data. */
module PipeFork {
  import opened PipeClose

  /** The copy after the Fd pages below number `nf` and the data pages below number `nd`. */
  function Below(t: Local, nf: nat, nd: nat): Local {
    Local(map n | n in t.fd && n < nf :: t.fd[n], map n | n in t.data && n < nd :: t.data[n])
  }

  /** Data pages come when all Fd pages are done. */
  predicate Ascending(t: Local, nf: nat, nd: nat) {
    nd > 0 ==> forall n :: n in t.fd ==> n < nf
  }

  /** The running environment is in the middle of a fork. */
  function ForkPart(st: St, child: nat, nf: nat, nd: nat): St
    requires st.cur in st.envs
  {
    st.(envs := st.envs[child := Env(Below(st.envs[st.cur].tab, nf, nd), [], NoCheck, 0)])
  }

  function FdTaken(t: Local, q: nat, nf: nat): (s: set<nat>) {
    set n | n in t.fd && n < nf && t.fd[n] == q
  }

  function DataTaken(t: Local, q: nat, nd: nat): (s: set<nat>) {
    set n | n in t.data && n < nd && t.data[n] == q
  }

  function SlotsOf(child: nat, ns: set<nat>): (s: set<Slot>)
    ensures forall x: Slot :: x in s <==> x.e == child && x.n in ns
  {
    set n | n in ns :: Slot(child, n)
  }

  lemma {:induction false} SlotsCount(child: nat, ns: set<nat>)
    ensures |SlotsOf(child, ns)| == |ns|
  {
    if ns != {} {
      var n :| n in ns;
      SlotsCount(child, ns - {n});
      assert SlotsOf(child, ns) == SlotsOf(child, ns - {n}) + {Slot(child, n)};
    } else {
      assert SlotsOf(child, ns) == {};
    }
  }

  /** What the partial copy adds to the references of a page. */
  lemma PartRef(st: St, child: nat, nf: nat, nd: nat, q: nat)
    requires st.cur in st.envs && child !in st.envs
    ensures var t := st.envs[st.cur].tab; var st' := ForkPart(st, child, nf, nd);
      && PageRef(st', q) == PageRef(st, q) + |FdTaken(t, q, nf)| + |DataTaken(t, q, nd)|
      && FdSlots(st', q) == FdSlots(st, q) + SlotsOf(child, FdTaken(t, q, nf))
  {
    var t := st.envs[st.cur].tab;
    var st' := ForkPart(st, child, nf, nd);
    var fds, datas := SlotsOf(child, FdTaken(t, q, nf)), SlotsOf(child, DataTaken(t, q, nd));
    forall x ensures MapsFd(st', x, q) <==> MapsFd(st, x, q) || x in fds
      ensures MapsData(st', x, q) <==> MapsData(st, x, q) || x in datas
    {
      if x.e != child && x.e in st.envs {
        assert st'.envs[x.e] == st.envs[x.e];
      }
    }
    assert FdSlots(st', q) == FdSlots(st, q) + fds && FdSlots(st, q) * fds == {};
    assert DataSlots(st', q) == DataSlots(st, q) + datas && DataSlots(st, q) * datas == {};
    SlotsCount(child, FdTaken(t, q, nf));
    SlotsCount(child, DataTaken(t, q, nd));
  }

  /** At every moment of the copy the references to an end are those to the buffer iff the forking table
      has given as many descriptors of that end as there are descriptors of the other end, and buffers
      given so far. */
  lemma PartIff(p: Pipe, st: St, child: nat, nf: nat, nd: nat, f: nat)
    requires Inv(p, st) && Quiet(st) && st.cur in st.envs && child !in st.envs && IsEnd(p, f)
    ensures var t := st.envs[st.cur].tab; var st' := ForkPart(st, child, nf, nd);
      PageRef(st', f) == PageRef(st', p.buf) <==>
      |FdTaken(t, f, nf)| == |FdSlots(st, Other(p, f))| + |DataTaken(t, p.buf, nd)|
  {
    var t := st.envs[st.cur].tab;
    PartRef(st, child, nf, nd, f);
    PartRef(st, child, nf, nd, p.buf);
    QuietCounts(p, st);
    EndHasNoDataSlots(p, st, p.rd);
    EndHasNoDataSlots(p, st, p.wr);
    assert Safe(p, t, st.envs[st.cur].job);
    assert DataTaken(t, f, nd) == {} && FdTaken(t, p.buf, nf) == {};
  }

  // ----- What an end is told then -----

  /** Another environment gets to run and asks. */
  function Ask(w: nat, n: nat): seq<Event> { [Switch(w)] + ([CheckStart(n)] + ([CheckFd] + ([CheckBuf] + []))) }

  lemma RunFirst(p: Pipe, st: St, ev: Event, evs: seq<Event>)
    requires Enabled(p, st, ev) && Possible(p, Step(p, st, ev), evs)
    ensures Possible(p, st, [ev] + evs) && Run(p, st, [ev] + evs) == Run(p, Step(p, st, ev), evs)
  {
    assert ([ev] + evs)[1..] == evs;
  }

  predicate CanAsk(p: Pipe, st: St, w: nat, n: nat, f: nat) {
    && st.cur in st.envs && w in st.envs && st.envs[w].job == [] && st.envs[w].check.NoCheck? && IsEnd(p, f)
    && n in st.envs[w].tab.fd && st.envs[w].tab.fd[n] == f
    && n in st.envs[w].tab.data && st.envs[w].tab.data[n] == p.buf
  }

  /** The state in which it has asked. */
  ghost function Checking(st: St, w: nat, check: Check): St
    requires w in st.envs
  {
    St(st.envs[w := st.envs[w].(runs := st.envs[w].runs + 1, check := check)], w)
  }

  lemma SameCount(st: St, w: nat, check: Check, q: nat)
    requires w in st.envs
    ensures PageRef(Checking(st, w, check), q) == PageRef(st, q)
  {
    SameTables(st, Checking(st, w, check), q);
  }

  lemma AskStarts(p: Pipe, st: St, w: nat, n: nat, f: nat)
    requires CanAsk(p, st, w, n, f)
    ensures var s1, s2 := Checking(st, w, NoCheck), Checking(st, w, ReadRuns(n, st.envs[w].runs + 1));
      && Enabled(p, st, Switch(w)) && Step(p, st, Switch(w)) == s1
      && Enabled(p, s1, CheckStart(n)) && Step(p, s1, CheckStart(n)) == s2
  {
  }

  lemma AskLoadsFd(p: Pipe, st: St, w: nat, n: nat, f: nat)
    requires CanAsk(p, st, w, n, f)
    ensures var k := st.envs[w].runs + 1; var s := Checking(st, w, ReadRuns(n, k));
      Enabled(p, s, CheckFd) && Step(p, s, CheckFd) == Checking(st, w, ReadFd(n, k, PageRef(st, f)))
  {
    SameCount(st, w, ReadRuns(n, st.envs[w].runs + 1), f);
  }

  lemma AskLoadsBuf(p: Pipe, st: St, w: nat, n: nat, f: nat, c: nat)
    requires CanAsk(p, st, w, n, f)
    ensures var k := st.envs[w].runs + 1; var s := Checking(st, w, ReadFd(n, k, c));
      Enabled(p, s, CheckBuf) && Step(p, s, CheckBuf) == Checking(st, w, ReadBoth(n, k, c, PageRef(st, p.buf)))
  {
    SameCount(st, w, ReadFd(n, st.envs[w].runs + 1, c), p.buf);
  }

  lemma AskRuns(p: Pipe, st: St, w: nat, n: nat, f: nat)
    requires CanAsk(p, st, w, n, f)
    ensures Possible(p, st, Ask(w, n))
    ensures var k := st.envs[w].runs + 1;
      Run(p, st, Ask(w, n)) == Checking(st, w, ReadBoth(n, k, PageRef(st, f), PageRef(st, p.buf)))
  {
    var k, c := st.envs[w].runs + 1, PageRef(st, f);
    AskStarts(p, st, w, n, f);
    AskLoadsFd(p, st, w, n, f);
    AskLoadsBuf(p, st, w, n, f, c);
    RunFirst(p, Checking(st, w, ReadFd(n, k, c)), CheckBuf, []);
    RunFirst(p, Checking(st, w, ReadRuns(n, k)), CheckFd, [CheckBuf] + []);
    RunFirst(p, Checking(st, w, NoCheck), CheckStart(n), [CheckFd] + ([CheckBuf] + []));
    RunFirst(p, st, Switch(w), [CheckStart(n)] + ([CheckFd] + ([CheckBuf] + [])));
  }

  /** The answer, in any state: it compares the counts that are. */
  lemma AnswerIs(p: Pipe, st: St, w: nat, n: nat, f: nat)
    requires CanAsk(p, st, w, n, f)
    ensures Possible(p, st, Ask(w, n))
    ensures var u := Run(p, st, Ask(w, n));
      && Returns(p, u, CheckEnd, f) && (SaysClosed(u) <==> PageRef(st, f) == PageRef(st, p.buf))
      && u.envs.Keys == st.envs.Keys && forall e :: e in st.envs ==> u.envs[e].tab == st.envs[e].tab
  {
    AskRuns(p, st, w, n, f);
  }

  /** Asked in the middle of a fork, _pipe_is_closed says "closed" to an end exactly in that case; it is
      wrong if the other end is mapped. */
  lemma MidForkAnswer(p: Pipe, st: St, child: nat, nf: nat, nd: nat, w: nat, n: nat, f: nat)
    requires Inv(p, st) && Quiet(st) && st.cur in st.envs && child !in st.envs
    requires w in st.envs && st.envs[w].check.NoCheck?
    requires n in st.envs[w].tab.fd && st.envs[w].tab.fd[n] == f && IsEnd(p, f)
    ensures var st' := ForkPart(st, child, nf, nd); Possible(p, st', Ask(w, n))
    ensures var t := st.envs[st.cur].tab; var st' := ForkPart(st, child, nf, nd); var u := Run(p, st', Ask(w, n));
      && Returns(p, u, CheckEnd, f)
      && (SaysClosed(u) <==> |FdTaken(t, f, nf)| == |FdSlots(st, Other(p, f))| + |DataTaken(t, p.buf, nd)|)
      && FdSlots(st, Other(p, f)) <= FdSlots(u, Other(p, f))
  {
    var st' := ForkPart(st, child, nf, nd);
    assert Safe(p, st.envs[w].tab, st.envs[w].job);
    PartIff(p, st, child, nf, nd, f);
    PartRef(st, child, nf, nd, Other(p, f));
    AnswerIs(p, st', w, n, f);
    var u := Run(p, st', Ask(w, n));
    forall x | MapsFd(st', x, Other(p, f)) ensures MapsFd(u, x, Other(p, f)) {
    }
  }

  // ----- A run that leads there -----

  lemma {:induction false} RunAppend(p: Pipe, st: St, xs: seq<Event>, ys: seq<Event>)
    requires Possible(p, st, xs) && Possible(p, Run(p, st, xs), ys)
    ensures Possible(p, st, xs + ys) && Run(p, st, xs + ys) == Run(p, Run(p, st, xs), ys)
    decreases |xs|
  {
    if xs == [] {
      assert xs + ys == ys;
    } else {
      RunAppend(p, Step(p, st, xs[0]), xs[1..], ys);
      assert (xs + ys)[1..] == xs[1..] + ys;
    }
  }

  /** The running environment with another table. */
  function WithTab(st: St, t: Local): St
    requires st.cur in st.envs
  {
    st.(envs := st.envs[st.cur := st.envs[st.cur].(tab := t)])
  }

  function Closing(n: nat): seq<Event> { [StartClose(PipeDev, n)] + ([DoCall] + ([DoCall] + ([DoCall] + []))) }

  function WithJob(st: St, t: Local, job: seq<Call>): St
    requires st.cur in st.envs
  {
    st.(envs := st.envs[st.cur := st.envs[st.cur].(tab := t, job := job)])
  }

  lemma CallStep(p: Pipe, st: St, t: Local, c: Call, rest: seq<Call>)
    requires st.cur in st.envs
    ensures var s := WithJob(st, t, [c] + rest);
      Enabled(p, s, DoCall) && Step(p, s, DoCall) == WithJob(st, Exec(t, c), rest)
  {
    assert ([c] + rest)[1..] == rest;
  }

  lemma ClosingRuns(p: Pipe, st: St, n: nat)
    requires st.cur in st.envs && st.envs[st.cur].job == [] && st.envs[st.cur].check.NoCheck?
    requires n in st.envs[st.cur].tab.fd
    ensures Possible(p, st, Closing(n))
    ensures var t := st.envs[st.cur].tab; Run(p, st, Closing(n)) == WithTab(st, Local(t.fd - {n}, t.data - {n}))
  {
    var t := st.envs[st.cur].tab;
    var t1 := Exec(t, UnmapFd(n));
    var t2 := Exec(t1, UnmapData(n));
    var t3 := Exec(t2, UnmapFd(n));
    assert CloseCalls(PipeDev, n) == [UnmapFd(n)] + ([UnmapData(n)] + ([UnmapFd(n)] + []));
    CallStep(p, st, t, UnmapFd(n), [UnmapData(n)] + ([UnmapFd(n)] + []));
    CallStep(p, st, t1, UnmapData(n), [UnmapFd(n)] + []);
    CallStep(p, st, t2, UnmapFd(n), []);
    assert t3 == Local(t.fd - {n}, t.data - {n});
    assert WithJob(st, t3, []) == WithTab(st, t3);
    RunFirst(p, WithJob(st, t2, [UnmapFd(n)] + []), DoCall, []);
    RunFirst(p, WithJob(st, t1, [UnmapData(n)] + ([UnmapFd(n)] + [])), DoCall, [DoCall] + []);
    RunFirst(p, WithJob(st, t, CloseCalls(PipeDev, n)), DoCall, [DoCall] + ([DoCall] + []));
    RunFirst(p, st, StartClose(PipeDev, n), [DoCall] + ([DoCall] + ([DoCall] + [])));
  }

  function Both(p: Pipe, a: nat, b: nat): Local { Local(map[a := p.rd, b := p.wr], map[a := p.buf, b := p.buf]) }

  function Kept(p: Pipe, n: nat, f: nat): Local { Local(map[n := f], map[n := p.buf]) }

  /** Three environments `e`, `w`, `r`, of which `cur` runs. */
  function Three(e: nat, w: nat, r: nat, te: Local, tw: Local, tr: Local, re: nat, rw: nat, rr: nat, cur: nat): St {
    St(map[e := Env(te, [], NoCheck, re), w := Env(tw, [], NoCheck, rw), r := Env(tr, [], NoCheck, rr)], cur)
  }

  /** A process with a new pipe forks twice; it and one child keep the write end, the other the read end. */
  function Lead(e: nat, w: nat, r: nat, a: nat, b: nat): seq<Event> {
    [Fork(w)] + ([Fork(r)] + Rest(w, r, e, a, b))
  }

  /** Each environment runs, closes the end it does not need, and lets the next run. */
  function Rest(w: nat, r: nat, e: nat, a: nat, b: nat): seq<Event> {
    Closing(a) + ([Switch(w)] + (Closing(a) + ([Switch(r)] + (Closing(b) + ([Switch(e)] + [])))))
  }

  lemma ForksFirst(p: Pipe, e: nat, w: nat, r: nat, t: Local, k: nat)
    requires e != w && e != r && w != r
    ensures var s := St(map[e := Env(t, [], NoCheck, k)], e);
      && Enabled(p, s, Fork(w)) && Enabled(p, Step(p, s, Fork(w)), Fork(r))
      && Step(p, Step(p, s, Fork(w)), Fork(r)) == Three(e, w, r, t, t, t, k, 0, 0, e)
  {
  }

  lemma SwitchThree(p: Pipe, s: St, s': St, x: nat)
    requires s.cur in s.envs && x in s.envs && s' == Checking(s, x, s.envs[x].check)
    ensures Enabled(p, s, Switch(x)) && Step(p, s, Switch(x)) == s'
  {
  }

  lemma FirstCloses(e: nat, w: nat, r: nat, t: Local, u: Local, k: nat)
    requires e != w && e != r && w != r
    ensures var s := Three(e, w, r, u, t, t, k, 0, 0, e);
      && WithTab(Three(e, w, r, t, t, t, k, 0, 0, e), u) == s
      && Checking(s, w, NoCheck) == Three(e, w, r, u, t, t, k, 1, 0, w)
  {
  }

  lemma SecondCloses(e: nat, w: nat, r: nat, t: Local, u: Local, k: nat)
    requires e != w && e != r && w != r
    ensures var s := Three(e, w, r, u, u, t, k, 1, 0, w);
      && WithTab(Three(e, w, r, u, t, t, k, 1, 0, w), u) == s
      && Checking(s, r, NoCheck) == Three(e, w, r, u, u, t, k, 1, 1, r)
  {
  }

  lemma ThirdCloses(e: nat, w: nat, r: nat, t: Local, u: Local, v: Local, k: nat)
    requires e != w && e != r && w != r
    ensures var s := Three(e, w, r, u, u, v, k, 1, 1, r);
      && WithTab(Three(e, w, r, u, u, t, k, 1, 1, r), v) == s
      && Checking(s, e, NoCheck) == Three(e, w, r, u, u, v, k + 1, 1, 1, e)
  {
  }

  lemma RestRuns(p: Pipe, e: nat, w: nat, r: nat, a: nat, b: nat, k: nat)
    requires Distinct(p) && a != b && e != w && e != r && w != r
    ensures var t := Both(p, a, b); var s := Three(e, w, r, t, t, t, k, 0, 0, e);
      && Possible(p, s, Rest(w, r, e, a, b))
      && Run(p, s, Rest(w, r, e, a, b)) ==
           Three(e, w, r, Kept(p, b, p.wr), Kept(p, b, p.wr), Kept(p, a, p.rd), k + 1, 1, 1, e)
  {
    var t, tw := Both(p, a, b), Kept(p, b, p.wr);
    assert tw == Local(t.fd - {a}, t.data - {a});
    var s2 := Three(e, w, r, t, t, t, k, 0, 0, e);
    var s3 := Three(e, w, r, tw, t, t, k, 0, 0, e);
    var s4 := Three(e, w, r, tw, t, t, k, 1, 0, w);
    LaterRuns(p, e, w, r, a, b, k);
    FirstCloses(e, w, r, t, tw, k);
    NextEnv(p, s2, s3, s4, w, a, t, tw, Closing(a) + ([Switch(r)] + (Closing(b) + ([Switch(e)] + []))));
  }

  lemma LaterRuns(p: Pipe, e: nat, w: nat, r: nat, a: nat, b: nat, k: nat)
    requires Distinct(p) && a != b && e != w && e != r && w != r
    ensures var t, tw := Both(p, a, b), Kept(p, b, p.wr); var s := Three(e, w, r, tw, t, t, k, 1, 0, w);
      var evs := Closing(a) + ([Switch(r)] + (Closing(b) + ([Switch(e)] + [])));
      Possible(p, s, evs) && Run(p, s, evs) == Three(e, w, r, tw, tw, Kept(p, a, p.rd), k + 1, 1, 1, e)
  {
    var t, tw, tr := Both(p, a, b), Kept(p, b, p.wr), Kept(p, a, p.rd);
    assert tw == Local(t.fd - {a}, t.data - {a}) && tr == Local(t.fd - {b}, t.data - {b});
    var s4 := Three(e, w, r, tw, t, t, k, 1, 0, w);
    var s5 := Three(e, w, r, tw, tw, t, k, 1, 0, w);
    var s6 := Three(e, w, r, tw, tw, t, k, 1, 1, r);
    var s7 := Three(e, w, r, tw, tw, tr, k, 1, 1, r);
    var s8 := Three(e, w, r, tw, tw, tr, k + 1, 1, 1, e);
    SecondCloses(e, w, r, t, tw, k);
    ThirdCloses(e, w, r, t, tw, tr, k);
    LastEnv(p, s6, s7, s8, e, b, t, tr);
    NextEnv(p, s4, s5, s6, r, a, t, tw, Closing(b) + ([Switch(e)] + []));
  }

  lemma NextEnv(p: Pipe, s: St, s1: St, s2: St, x: nat, n: nat, t: Local, u: Local, evs: seq<Event>)
    requires s.cur in s.envs && s.envs[s.cur].tab == t && s.envs[s.cur].job == [] && s.envs[s.cur].check.NoCheck?
    requires n in t.fd && u == Local(t.fd - {n}, t.data - {n}) && s1 == WithTab(s, u)
    requires x in s.envs && s2 == Checking(s1, x, s1.envs[x].check) && Possible(p, s2, evs)
    ensures var all := Closing(n) + ([Switch(x)] + evs); Possible(p, s, all) && Run(p, s, all) == Run(p, s2, evs)
  {
    ClosingRuns(p, s, n);
    SwitchThree(p, s1, s2, x);
    RunFirst(p, s1, Switch(x), evs);
    RunAppend(p, s, Closing(n), [Switch(x)] + evs);
  }

  lemma LastEnv(p: Pipe, s: St, s1: St, s2: St, x: nat, n: nat, t: Local, u: Local)
    requires s.cur in s.envs && s.envs[s.cur].tab == t && s.envs[s.cur].job == [] && s.envs[s.cur].check.NoCheck?
    requires n in t.fd && u == Local(t.fd - {n}, t.data - {n}) && s1 == WithTab(s, u)
    requires x in s.envs && s2 == Checking(s1, x, s1.envs[x].check)
    ensures var all := Closing(n) + ([Switch(x)] + []); Possible(p, s, all) && Run(p, s, all) == s2
  {
    NextEnv(p, s, s1, s2, x, n, t, u, []);
  }

  lemma LeadRuns(p: Pipe, e: nat, w: nat, r: nat, a: nat, b: nat, k: nat)
    requires Distinct(p) && a != b && e != w && e != r && w != r
    ensures var st := St(map[e := Env(Both(p, a, b), [], NoCheck, k)], e);
      && Possible(p, st, Lead(e, w, r, a, b))
      && Run(p, st, Lead(e, w, r, a, b)) ==
           Three(e, w, r, Kept(p, b, p.wr), Kept(p, b, p.wr), Kept(p, a, p.rd), k + 1, 1, 1, e)
  {
    var st := St(map[e := Env(Both(p, a, b), [], NoCheck, k)], e);
    ForksFirst(p, e, w, r, Both(p, a, b), k);
    RestRuns(p, e, w, r, a, b, k);
    RunFirst(p, Step(p, st, Fork(w)), Fork(r), Rest(w, r, e, a, b));
    RunFirst(p, st, Fork(w), [Fork(r)] + Rest(w, r, e, a, b));
  }

  /** So from a new pipe a run leads to a fork during which a writer is told "closed" while the reader is
      there. */
  lemma MisledReachable(p: Pipe, e: nat, w: nat, r: nat, child: nat, a: nat, b: nat, k: nat, nf: nat)
    requires Distinct(p) && a != b && e != w && e != r && w != r && child !in {e, w, r} && b < nf
    ensures var st := St(map[e := Env(Both(p, a, b), [], NoCheck, k)], e);
      var s := Three(e, w, r, Kept(p, b, p.wr), Kept(p, b, p.wr), Kept(p, a, p.rd), k + 1, 1, 1, e);
      && Inv(p, st) && Possible(p, st, Lead(e, w, r, a, b)) && Run(p, st, Lead(e, w, r, a, b)) == s
      && Ascending(s.envs[e].tab, nf, 0) && Possible(p, ForkPart(s, child, nf, 0), Ask(w, b))
      && var u := Run(p, ForkPart(s, child, nf, 0), Ask(w, b));
         Returns(p, u, CheckEnd, p.wr) && SaysClosed(u) && FdSlots(u, p.rd) != {}
  {
    LeadKeeps(p, e, w, r, a, b, k);
    var s := Three(e, w, r, Kept(p, b, p.wr), Kept(p, b, p.wr), Kept(p, a, p.rd), k + 1, 1, 1, e);
    Misled(p, s, e, w, r, child, a, b, nf);
  }

  lemma LeadKeeps(p: Pipe, e: nat, w: nat, r: nat, a: nat, b: nat, k: nat)
    requires Distinct(p) && a != b && e != w && e != r && w != r
    ensures var st := St(map[e := Env(Both(p, a, b), [], NoCheck, k)], e);
      var s := Three(e, w, r, Kept(p, b, p.wr), Kept(p, b, p.wr), Kept(p, a, p.rd), k + 1, 1, 1, e);
      Inv(p, st) && Possible(p, st, Lead(e, w, r, a, b)) && Run(p, st, Lead(e, w, r, a, b)) == s && Inv(p, s)
  {
    var st := St(map[e := Env(Both(p, a, b), [], NoCheck, k)], e);
    PipeEstablishes(p, st, e, a, b);
    LeadRuns(p, e, w, r, a, b, k);
    RunKeeps(p, st, Lead(e, w, r, a, b));
  }

  lemma Misled(p: Pipe, s: St, e: nat, w: nat, r: nat, child: nat, a: nat, b: nat, nf: nat)
    requires Inv(p, s) && s.cur == e && child !in s.envs && b < nf && e != w && e != r && w != r
    requires s.envs.Keys == {e, w, r} && Quiet(s) && s.envs[w].check.NoCheck?
    requires s.envs[e].tab == s.envs[w].tab == Kept(p, b, p.wr) && s.envs[r].tab == Kept(p, a, p.rd)
    ensures Possible(p, ForkPart(s, child, nf, 0), Ask(w, b))
    ensures var u := Run(p, ForkPart(s, child, nf, 0), Ask(w, b));
      Returns(p, u, CheckEnd, p.wr) && SaysClosed(u) && FdSlots(u, p.rd) != {}
  {
    MidForkAnswer(p, s, child, nf, 0, w, b, p.wr);
    OneReader(p, s, e, w, r, a, b);
    KeptCounts(p, b, nf);
  }

  lemma OneReader(p: Pipe, s: St, e: nat, w: nat, r: nat, a: nat, b: nat)
    requires Distinct(p) && s.envs.Keys == {e, w, r}
    requires s.envs[e].tab == s.envs[w].tab == Kept(p, b, p.wr) && s.envs[r].tab == Kept(p, a, p.rd)
    ensures FdSlots(s, p.rd) == {Slot(r, a)}
  {
  }

  lemma KeptCounts(p: Pipe, b: nat, nf: nat)
    requires b < nf
    ensures FdTaken(Kept(p, b, p.wr), p.wr, nf) == {b} && DataTaken(Kept(p, b, p.wr), p.buf, 0) == {}
  {
  }
}
