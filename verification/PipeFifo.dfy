/** The pipe buffer under preemption (user/lib/pipe.c): one reader and one writer, interleaved at
    single accesses to the shared page, with 32-bit positions that wrap around. */
module PipeFifo {
  import opened Basics

  const PIPE_SIZE := 32
  const U32 := 0x1_0000_0000

  type Byte = n: nat | n < 256

  /** pipe_read, between two accesses.  The test of `p_rpos == p_wpos` loads in either order. */
  datatype Reader =
    | ReadTest(r: Option<nat>, w: Option<nat>)
    | ReadIndex                    // not empty: about to load p_rpos for the index
    | ReadByte(at: nat)            // about to load p_buf[at % PIPE_SIZE]
    | ReadKeep(b: Byte)            // about to store into the caller's buffer
    | ReadInc                      // about to load p_rpos for ++
    | ReadStore(from: nat)            // about to store p_rpos

  /** pipe_write, between two accesses. */
  datatype Writer =
    | WriteTest(w: Option<nat>, r: Option<nat>)
    | WriteIndex
    | WriteByte(at: nat)
    | WriteInc(b: Byte)
    | WriteStore(b: Byte, from: nat)

  /** The shared Pipe page, the two program points, and the history: the bytes stored into the
      reader's buffers and the bytes whose position the writer has published. */
  datatype St = St(rpos: nat, wpos: nat, buf: seq<Byte>, reader: Reader, writer: Writer,
                   delivered: seq<Byte>, written: seq<Byte>)

  datatype Event =
    | LoadReadR | LoadReadW        // loads of the reader's test
    | Read                         // the reader's next access
    | LoadWriteW | LoadWriteR      // loads of the writer's test
    | Write(b: Byte)               // the writer's next access; `b` is used where it stores a byte

  function Initial(buf: seq<Byte>): St {
    St(0, 0, buf, ReadTest(None, None), WriteTest(None, None), [], [])
  }

  /** The reader's test: an empty pipe restarts it, whether by yield, retry or return. */
  function ReadDecide(r: nat, w: nat): Reader {
    if r == w then ReadTest(None, None) else ReadIndex
  }

  /** The writer's test, in unsigned 32-bit arithmetic. */
  function WriteDecide(w: nat, r: nat): Writer {
    if (w - r) % U32 == PIPE_SIZE then WriteTest(None, None) else WriteIndex
  }

  function Step(st: St, ev: Event): St
    requires |st.buf| == PIPE_SIZE
  {
    match ev
    case LoadReadR =>
      (match st.reader
       case ReadTest(None, None) => st.(reader := ReadTest(Some(st.rpos), None))
       case ReadTest(None, Some(w)) => st.(reader := ReadDecide(st.rpos, w))
       case _ => st)
    case LoadReadW =>
      (match st.reader
       case ReadTest(None, None) => st.(reader := ReadTest(None, Some(st.wpos)))
       case ReadTest(Some(r), None) => st.(reader := ReadDecide(r, st.wpos))
       case _ => st)
    case Read =>
      (match st.reader
       case ReadIndex => st.(reader := ReadByte(st.rpos))
       case ReadByte(at) => st.(reader := ReadKeep(st.buf[at % PIPE_SIZE]))
       case ReadKeep(b) => st.(reader := ReadInc, delivered := st.delivered + [b])
       case ReadInc => st.(reader := ReadStore(st.rpos))
       case ReadStore(r) => st.(reader := ReadTest(None, None), rpos := (r + 1) % U32)
       case _ => st)
    case LoadWriteW =>
      (match st.writer
       case WriteTest(None, None) => st.(writer := WriteTest(Some(st.wpos), None))
       case WriteTest(None, Some(r)) => st.(writer := WriteDecide(st.wpos, r))
       case _ => st)
    case LoadWriteR =>
      (match st.writer
       case WriteTest(None, None) => st.(writer := WriteTest(None, Some(st.rpos)))
       case WriteTest(Some(w), None) => st.(writer := WriteDecide(w, st.rpos))
       case _ => st)
    case Write(x) =>
      (match st.writer
       case WriteIndex => st.(writer := WriteByte(st.wpos))
       case WriteByte(at) => st.(writer := WriteInc(x), buf := st.buf[at % PIPE_SIZE := x])
       case WriteInc(b) => st.(writer := WriteStore(b, st.wpos))
       case WriteStore(b, w) =>
         st.(writer := WriteTest(None, None), wpos := (w + 1) % U32, written := st.written + [b])
       case _ => st)
  }

  /** Bytes whose read position has been passed: the last one delivered may not be yet. */
  function Taken(st: St): int {
    |st.delivered| - (if st.reader.ReadInc? || st.reader.ReadStore? then 1 else 0)
  }

  /** The positions are the two counts modulo 2^32, and the counts differ by at most PIPE_SIZE. */
  predicate Positions(st: St) {
    var r := Taken(st);
    var w := |st.written|;
    && |st.buf| == PIPE_SIZE
    && 0 <= r <= w <= r + PIPE_SIZE
    && st.rpos == r % U32 && st.wpos == w % U32
  }

  /** A stored byte stays until it is taken. */
  predicate Buffer(st: St)
    requires Positions(st)
  {
    && (forall k :: Taken(st) <= k < |st.written| ==> st.buf[k % PIPE_SIZE] == st.written[k])
    && |st.delivered| <= |st.written| && st.delivered == st.written[..|st.delivered|]
  }

  predicate ReaderOk(st: St)
    requires Positions(st)
  {
    var n := |st.written| - Taken(st);
    match st.reader
    case ReadTest(r, w) =>
      && (r.Some? ==> r.value == st.rpos)
      && (w.Some? ==> w.value < U32 && (w.value - st.rpos) % U32 <= n)
    case ReadIndex => 0 < n
    case ReadByte(at) => 0 < n && at == st.rpos
    case ReadKeep(b) => 0 < n && b == st.written[Taken(st)]
    case ReadInc => 0 < n
    case ReadStore(r) => 0 < n && r == st.rpos
  }

  predicate WriterOk(st: St)
    requires Positions(st)
  {
    var n := |st.written| - Taken(st);
    var next := |st.written| % PIPE_SIZE;
    match st.writer
    case WriteTest(w, r) =>
      && (w.Some? ==> w.value == st.wpos)
      && (r.Some? ==> n <= (st.wpos - r.value) % U32 <= PIPE_SIZE)
    case WriteIndex => n < PIPE_SIZE
    case WriteByte(at) => n < PIPE_SIZE && at == st.wpos
    case WriteInc(b) => n < PIPE_SIZE && st.buf[next] == b
    case WriteStore(b, w) => n < PIPE_SIZE && st.buf[next] == b && w == st.wpos
  }

  predicate Inv(st: St) {
    Positions(st) && Buffer(st) && ReaderOk(st) && WriterOk(st)
  }

  // ----- Arithmetic of the wrapped positions -----

  lemma WrapIndex(k: nat)
    ensures k % U32 % PIPE_SIZE == k % PIPE_SIZE
  {
  }

  lemma WrapDiff(a: nat, b: nat)
    requires b <= a < b + U32
    ensures (a % U32 - b % U32) % U32 == a - b
  {
  }

  lemma WrapNext(a: nat)
    ensures (a % U32 + 1) % U32 == (a + 1) % U32
  {
  }

  lemma OtherCell(k: nat, j: nat)
    requires k < j < k + PIPE_SIZE
    ensures k % PIPE_SIZE != j % PIPE_SIZE
  {
  }

  // ----- Steps -----

  lemma InitialOk(buf: seq<Byte>)
    requires |buf| == PIPE_SIZE
    ensures Inv(Initial(buf))
  {
  }

  lemma ReaderTests(st: St, ev: Event)
    requires Inv(st) && (ev.LoadReadR? || ev.LoadReadW?)
    ensures Inv(Step(st, ev))
  {
    WrapDiff(|st.written|, Taken(st));
  }

  lemma ReaderMoves(st: St)
    requires Inv(st)
    ensures Inv(Step(st, Read))
  {
    var r := Taken(st);
    WrapDiff(|st.written|, r);
    WrapIndex(r);
    WrapNext(r);
  }

  lemma WriterTests(st: St, ev: Event)
    requires Inv(st) && (ev.LoadWriteR? || ev.LoadWriteW?)
    ensures Inv(Step(st, ev))
  {
    WrapDiff(|st.written|, Taken(st));
  }

  lemma WriterMoves(st: St, b: Byte)
    requires Inv(st)
    ensures Inv(Step(st, Write(b)))
  {
    var r := Taken(st);
    var w := |st.written|;
    WrapDiff(w, r);
    WrapIndex(w);
    WrapNext(w);
    forall k: nat | r <= k < w && w < r + PIPE_SIZE ensures k % PIPE_SIZE != w % PIPE_SIZE {
      OtherCell(k, w);
    }
  }

  function Run(st: St, evs: seq<Event>): (r: St)
    requires |st.buf| == PIPE_SIZE
    ensures |r.buf| == PIPE_SIZE
    decreases |evs|
  {
    if evs == [] then st else Run(Step(st, evs[0]), evs[1..])
  }

  lemma {:induction false} RunKeeps(st: St, evs: seq<Event>)
    requires Inv(st)
    ensures Inv(Run(st, evs))
    decreases |evs|
  {
    if evs != [] {
      match evs[0] {
        case LoadReadR => ReaderTests(st, evs[0]);
        case LoadReadW => ReaderTests(st, evs[0]);
        case Read => ReaderMoves(st);
        case LoadWriteW => WriterTests(st, evs[0]);
        case LoadWriteR => WriterTests(st, evs[0]);
        case Write(b) => WriterMoves(st, b);
      }
      RunKeeps(Step(st, evs[0]), evs[1..]);
    }
  }

  // ----- First in, first out -----

  /** How many bytes the two positions say are in the pipe. */
  function Fill(st: St): nat { (st.wpos - st.rpos) % U32 }

  /** The bytes in the shared buffer from the read position on. */
  function Buffered(st: St): (s: seq<Byte>)
    requires |st.buf| == PIPE_SIZE
    ensures |s| == Fill(st)
  {
    seq(Fill(st), i => st.buf[(st.rpos + i) % U32 % PIPE_SIZE])
  }

  /** Between a byte's delivery and the store of the new read position it is still in the buffer. */
  function InTransit(st: St): nat { |st.delivered| - Taken(st) }

  lemma WrapOffset(r: nat, i: nat)
    ensures (r % U32 + i) % U32 % PIPE_SIZE == (r + i) % PIPE_SIZE
  {
  }

  lemma DeliveredThenBuffered(st: St)
    requires Inv(st)
    ensures Fill(st) <= PIPE_SIZE && InTransit(st) <= Fill(st)
    ensures st.delivered + Buffered(st)[InTransit(st)..] == st.written
  {
    var r := Taken(st);
    var b := Buffered(st);
    WrapDiff(|st.written|, r);
    forall i: nat | i < |b| ensures b[i] == st.written[r + i] {
      WrapOffset(r, i);
    }
  }

  /** After any interleaving of any number of accesses by the reader and the writer: the bytes
      delivered, followed by the bytes still in the buffer, are the bytes written, in order. */
  lemma Fifo(buf: seq<Byte>, evs: seq<Event>)
    requires |buf| == PIPE_SIZE
    ensures var st := Run(Initial(buf), evs);
      && Fill(st) <= PIPE_SIZE && InTransit(st) <= Fill(st)
      && st.delivered + Buffered(st)[InTransit(st)..] == st.written
  {
    InitialOk(buf);
    RunKeeps(Initial(buf), evs);
    DeliveredThenBuffered(Run(Initial(buf), evs));
  }
}
