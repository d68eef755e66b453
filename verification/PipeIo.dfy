/** pipe_read and pipe_write (user/lib/pipe.c) as the loops they are, each access to the shared page
    being one step of PipeFifo, with the other end moving as it likes before it. */
module PipeIo {
  import opened Basics
  import opened PipeFifo

  predicate IsReaders(ev: Event) { ev.LoadReadR? || ev.LoadReadW? || ev.Read? }

  predicate Readers(evs: seq<Event>) { forall i :: 0 <= i < |evs| ==> IsReaders(evs[i]) }

  predicate Writers(evs: seq<Event>) { forall i :: 0 <= i < |evs| ==> !IsReaders(evs[i]) }

  lemma FillIs(st: St)
    requires Inv(st)
    ensures Fill(st) == |st.written| - Taken(st)
  {
    WrapDiff(|st.written|, Taken(st));
  }

  lemma FillMoves(st: St, ev: Event)
    requires Inv(st) && Inv(Step(st, ev))
    ensures var u := Step(st, ev);
      Fill(u) == Fill(st) + (if ev.Write? && st.writer.WriteStore? then 1 else 0)
                 - (if ev.Read? && st.reader.ReadStore? then 1 else 0)
  {
    FillIs(st);
    FillIs(Step(st, ev));
  }

  /** What the writer does neither moves the reader nor takes away what it got, nor bytes from the pipe. */
  lemma {:induction false} WriterMeanwhile(st: St, evs: seq<Event>)
    requires Inv(st) && Writers(evs)
    ensures var u := Run(st, evs);
      Inv(u) && u.reader == st.reader && u.delivered == st.delivered && Fill(st) <= Fill(u)
    decreases |evs|
  {
    RunKeeps(st, evs);
    if evs != [] {
      assert !IsReaders(evs[0]);
      RunKeeps(st, evs[..1]);
      assert Run(st, evs[..1]) == Run(Step(st, evs[0]), evs[..1][1..]) == Step(st, evs[0]);
      FillMoves(st, evs[0]);
      WriterMeanwhile(Step(st, evs[0]), evs[1..]);
    }
  }

  /** What the reader does neither moves the writer nor undoes what it wrote, nor takes room away. */
  lemma {:induction false} ReaderMeanwhile(st: St, evs: seq<Event>)
    requires Inv(st) && Readers(evs)
    ensures var u := Run(st, evs);
      Inv(u) && u.writer == st.writer && u.written == st.written && Fill(u) <= Fill(st)
    decreases |evs|
  {
    RunKeeps(st, evs);
    if evs != [] {
      assert IsReaders(evs[0]);
      RunKeeps(st, evs[..1]);
      assert Run(st, evs[..1]) == Run(Step(st, evs[0]), evs[..1][1..]) == Step(st, evs[0]);
      FillMoves(st, evs[0]);
      ReaderMeanwhile(Step(st, evs[0]), evs[1..]);
    }
  }

  predicate AllWriters(plan: seq<seq<Event>>) { forall i :: 0 <= i < |plan| ==> Writers(plan[i]) }

  predicate AllReaders(plan: seq<seq<Event>>) { forall i :: 0 <= i < |plan| ==> Readers(plan[i]) }

  function Min(a: int, b: int): int { if a < b then a else b }

  class Shared {
    var st: St
    /** What the other end does before each access; nothing, once this is used up. */
    var plan: seq<seq<Event>>
    /** How often _pipe_is_closed will say no before it says yes, and the states in which it was asked. */
    var denials: nat
    ghost var asked: seq<St>

    /** Of the answers of _pipe_is_closed so many were used up, the last of them a yes iff `closed`; and
        each time the pipe held `fill` bytes. */
    twostate predicate Asked(closed: bool, fill: nat)
      reads this
    {
      && old(asked) <= asked && denials <= old(denials) && (closed ==> denials == 0)
      && |asked| == |old(asked)| + old(denials) - denials + (if closed then 1 else 0)
      && forall k :: |old(asked)| <= k < |asked| ==> Fill(asked[k]) == fill
    }

    method Do(ev: Event)
      requires Inv(st)
      modifies this`st, this`plan
      ensures Inv(st)
      ensures var mid := if old(plan) == [] then old(st) else Run(old(st), old(plan)[0]);
        Inv(mid) && st == Step(mid, ev) && plan == if old(plan) == [] then [] else old(plan)[1..]
    {
      if plan != [] {
        RunKeeps(st, plan[0]);
        st := Run(st, plan[0]);
        plan := plan[1..];
      }
      RunKeeps(st, [ev]);
      assert Run(st, [ev]) == Run(Step(st, ev), [ev][1..]) == Step(st, ev);
      st := Step(st, ev);
    }

    /** _pipe_is_closed. */
    method IsClosed() returns (yes: bool)
      modifies this`denials, this`asked
      ensures yes <==> old(denials) == 0
      ensures denials == (if yes then 0 else old(denials) - 1) && asked == old(asked) + [st]
    {
      asked := asked + [st];
      if denials == 0 {
        return true;
      }
      denials := denials - 1;
      return false;
    }

    /** The reader's next access. */
    method ReaderDo(ev: Event)
      requires Inv(st) && AllWriters(plan) && IsReaders(ev)
      modifies this`st, this`plan
      ensures Inv(st) && AllWriters(plan)
      ensures st.delivered == old(st.delivered)
        + if ev.Read? && old(st.reader).ReadKeep? then [old(st.reader).b] else []
      ensures old(Fill(st)) <= Fill(st) + if ev.Read? && old(st.reader).ReadStore? then 1 else 0
      ensures ev.Read? ==>
        match old(st.reader)
        case ReadIndex => st.reader.ReadByte?
        case ReadByte(_) => st.reader.ReadKeep?
        case ReadKeep(_) => st.reader.ReadInc?
        case ReadInc => st.reader.ReadStore?
        case ReadStore(_) => st.reader == ReadTest(None, None)
        case _ => true
      ensures ev.LoadReadR? && old(st.reader) == ReadTest(None, None) ==>
        st.reader.ReadTest? && st.reader.r.Some? && st.reader.w == None
      ensures ev.LoadReadW? && old(st.reader).ReadTest? && old(st.reader).r.Some? && old(st.reader).w == None
        ==> st.reader == if Fill(st) == 0 then ReadTest(None, None) else ReadIndex
    {
      ghost var mid := if plan == [] then st else Run(st, plan[0]);
      if plan != [] {
        WriterMeanwhile(st, plan[0]);
      }
      Do(ev);
      FillMoves(mid, ev);
      FillIs(st);
    }

    /** `p->p_rpos == p->p_wpos`. */
    method Empty() returns (empty: bool)
      requires Inv(st) && AllWriters(plan) && st.reader == ReadTest(None, None)
      modifies this`st, this`plan
      ensures Inv(st) && AllWriters(plan) && st.delivered == old(st.delivered)
      ensures st.reader == if empty then ReadTest(None, None) else ReadIndex
      ensures (empty <==> Fill(st) == 0) && old(Fill(st)) <= Fill(st)
    {
      ReaderDo(LoadReadR);
      ReaderDo(LoadReadW);
      empty := st.reader.ReadTest?;
    }

    /** The byte at the read position. */
    method Take() returns (b: Byte)
      requires Inv(st) && AllWriters(plan) && st.reader.ReadIndex?
      modifies this`st, this`plan
      ensures Inv(st) && AllWriters(plan) && st.reader == ReadTest(None, None)
      ensures st.delivered == old(st.delivered) + [b] && old(Fill(st)) <= Fill(st) + 1
    {
      ReaderDo(Read);
      ReaderDo(Read);
      b := st.reader.b;
      ReaderDo(Read);
      ReaderDo(Read);
      ReaderDo(Read);
    }

    /** The reader's inner loop: whether there is a byte to take.  With `some` bytes taken already it does
        not wait for more, whatever _pipe_is_closed says. */
    method AwaitByte(some: bool) returns (ok: bool, closed: bool)
      requires Inv(st) && AllWriters(plan) && st.reader == ReadTest(None, None)
      modifies this
      ensures Inv(st) && AllWriters(plan) && st.delivered == old(st.delivered)
      ensures st.reader == if ok then ReadIndex else ReadTest(None, None)
      ensures (ok <==> 0 < Fill(st)) && old(Fill(st)) <= Fill(st)
      ensures Asked(closed, 0) && (closed ==> !ok) && (!ok ==> some || closed)
      ensures forall k :: |old(asked)| <= k < |asked| ==> asked[k].delivered == old(st.delivered)
      ensures some ==> |asked| == |old(asked)| + if ok then 0 else 1
    {
      closed := false;
      var empty := Empty();
      while empty
        invariant Inv(st) && AllWriters(plan) && st.delivered == old(st.delivered)
        invariant st.reader == if empty then ReadTest(None, None) else ReadIndex
        invariant (empty <==> Fill(st) == 0) && old(Fill(st)) <= Fill(st)
        invariant Asked(false, 0) && !closed && (some ==> asked == old(asked))
        invariant forall k :: |old(asked)| <= k < |asked| ==> asked[k].delivered == old(st.delivered)
        decreases denials, empty
      {
        closed := IsClosed();
        if closed || some {
          return false, closed;
        }
        empty := Empty();
      }
      ok := true;
    }

    /** pipe_read; `closed` tells that it ended because _pipe_is_closed said yes.  The bytes returned are
        those that the writer wrote next: all that were asked for, or at least all that were there.  It
        ends early only at a test that found the pipe empty, and with none at all only when told that
        the pipe is closed; it asks that only of an empty pipe, and goes on waiting only while it has
        no byte. */
    method PipeRead(n: nat) returns (rbuf: seq<Byte>, closed: bool)
      requires Inv(st) && AllWriters(plan) && st.reader == ReadTest(None, None)
      modifies this
      ensures Inv(st) && st.reader == ReadTest(None, None)
      ensures |rbuf| <= n && st.delivered == old(st.delivered) + rbuf && st.delivered <= st.written
      ensures Min(n, old(Fill(st))) <= |rbuf|
      ensures |rbuf| < n ==> Fill(st) == 0
      ensures (rbuf == [] && n > 0 ==> closed) && (closed ==> |rbuf| < n)
      ensures Asked(closed, 0)
      ensures forall k :: |old(asked)| <= k < |asked| - 1 ==> asked[k].delivered == old(st.delivered)
    {
      rbuf, closed := [], false;
      while |rbuf| < n
        invariant Inv(st) && AllWriters(plan) && st.reader == ReadTest(None, None)
        invariant |rbuf| <= n && st.delivered == old(st.delivered) + rbuf
        invariant old(Fill(st)) <= |rbuf| + Fill(st)
        invariant Asked(false, 0) && !closed
        invariant forall k :: |old(asked)| <= k < |asked| ==> asked[k].delivered == old(st.delivered)
      {
        var ok;
        ok, closed := AwaitByte(rbuf != []);
        if !ok {
          return;
        }
        var b := Take();
        rbuf := rbuf + [b];
      }
    }

    // ----- The writer -----

    method WriterDo(ev: Event)
      requires Inv(st) && AllReaders(plan) && !IsReaders(ev)
      modifies this`st, this`plan
      ensures Inv(st) && AllReaders(plan)
      ensures st.written == old(st.written)
        + if ev.Write? && old(st.writer).WriteStore? then [old(st.writer).b] else []
      ensures Fill(st) <= old(Fill(st)) + if ev.Write? && old(st.writer).WriteStore? then 1 else 0
      ensures ev.Write? ==>
        match old(st.writer)
        case WriteIndex => st.writer.WriteByte?
        case WriteByte(_) => st.writer == WriteInc(ev.b)
        case WriteInc(b) => st.writer.WriteStore? && st.writer.b == b
        case WriteStore(_, _) => st.writer == WriteTest(None, None)
        case _ => true
      ensures ev.LoadWriteW? && old(st.writer) == WriteTest(None, None) ==>
        st.writer.WriteTest? && st.writer.w.Some? && st.writer.r == None
      ensures ev.LoadWriteR? && old(st.writer).WriteTest? && old(st.writer).w.Some? && old(st.writer).r == None
        ==> st.writer == if Fill(st) == PIPE_SIZE then WriteTest(None, None) else WriteIndex
    {
      ghost var mid := if plan == [] then st else Run(st, plan[0]);
      if plan != [] {
        ReaderMeanwhile(st, plan[0]);
      }
      Do(ev);
      FillMoves(mid, ev);
    }

    /** `p->p_wpos - p->p_rpos == PIPE_SIZE`. */
    method Full() returns (full: bool)
      requires Inv(st) && AllReaders(plan) && st.writer == WriteTest(None, None)
      modifies this`st, this`plan
      ensures Inv(st) && AllReaders(plan) && st.written == old(st.written)
      ensures st.writer == if full then WriteTest(None, None) else WriteIndex
      ensures (full <==> Fill(st) == PIPE_SIZE) && Fill(st) <= old(Fill(st))
    {
      WriterDo(LoadWriteW);
      WriterDo(LoadWriteR);
      full := st.writer.WriteTest?;
    }

    /** The byte goes to the write position. */
    method Put(b: Byte)
      requires Inv(st) && AllReaders(plan) && st.writer.WriteIndex?
      modifies this`st, this`plan
      ensures Inv(st) && AllReaders(plan) && st.writer == WriteTest(None, None) && st.written == old(st.written) + [b]
      ensures Fill(st) <= old(Fill(st)) + 1
    {
      WriterDo(Write(b));
      WriterDo(Write(b));
      WriterDo(Write(b));
      WriterDo(Write(b));
    }

    /** The writer's inner loop: whether there is room. */
    method AwaitRoom() returns (ok: bool)
      requires Inv(st) && AllReaders(plan) && st.writer == WriteTest(None, None)
      modifies this
      ensures Inv(st) && AllReaders(plan) && st.written == old(st.written)
      ensures st.writer == if ok then WriteIndex else WriteTest(None, None)
      ensures (ok <==> Fill(st) != PIPE_SIZE) && Fill(st) <= old(Fill(st))
      ensures Asked(!ok, PIPE_SIZE)
    {
      var full := Full();
      while full
        invariant Inv(st) && AllReaders(plan) && st.written == old(st.written)
        invariant st.writer == if full then WriteTest(None, None) else WriteIndex
        invariant (full <==> Fill(st) == PIPE_SIZE) && Fill(st) <= old(Fill(st))
        invariant Asked(false, PIPE_SIZE)
        decreases denials, full
      {
        var closed := IsClosed();
        if closed {
          return false;
        }
        full := Full();
      }
      return true;
    }

    /** pipe_write: exactly the first `i` bytes of the buffer are written.  They are all of them, or at
        least as many as there was room for at the start, whatever the reader does; it ends early only
        when told that the pipe is closed, and it asks that only of a full pipe. */
    method PipeWrite(wbuf: seq<Byte>) returns (i: nat, closed: bool)
      requires Inv(st) && AllReaders(plan) && st.writer == WriteTest(None, None)
      modifies this
      ensures Inv(st) && st.writer == WriteTest(None, None)
      ensures i <= |wbuf| && st.written == old(st.written) + wbuf[..i]
      ensures Min(|wbuf|, PIPE_SIZE - old(Fill(st))) <= i
      ensures (i < |wbuf| <==> closed) && (closed ==> Fill(st) == PIPE_SIZE)
      ensures Asked(closed, PIPE_SIZE)
    {
      i, closed := 0, false;
      while i < |wbuf|
        invariant Inv(st) && AllReaders(plan) && st.writer == WriteTest(None, None)
        invariant i <= |wbuf| && st.written == old(st.written) + wbuf[..i]
        invariant Fill(st) <= old(Fill(st)) + i
        invariant Asked(false, PIPE_SIZE)
      {
        var ok := AwaitRoom();
        if !ok {
          closed := true;
          return;
        }
        Put(wbuf[i]);
        assert wbuf[..i + 1] == wbuf[..i] + [wbuf[i]];
        i := i + 1;
      }
    }
  }
}
