/** elf_load_seg (lib/elfloader.c) with the callback load_icode_mapper (kern/env.c). */
module ElfLoad {
  import opened Basics

  const PAGE_SIZE := 4096

  newtype byte = x: int | 0 <= x < 256

  /** One call of map_page; `src` is where in the file the bytes start, or nothing for NULL. */
  datatype Call = Call(va: nat, offset: nat, src: Option<nat>, len: nat)

  /** p_vaddr, p_filesz, p_memsz, and the bytes of the file from p_offset on. */
  datatype Segment = Segment(va: nat, filesz: nat, memsz: nat, bin: seq<byte>)

  ghost predicate Valid(s: Segment) { s.filesz <= s.memsz && s.filesz <= |s.bin| }

  function Min(a: nat, b: nat): nat { if a < b then a else b }

  // ----- The calls -----

  function Offset(s: Segment): nat { s.va % PAGE_SIZE }

  function HeadLen(s: Segment): nat { Min(s.filesz, PAGE_SIZE - Offset(s)) }

  function FileCalls(s: Segment, i: nat): seq<Call>
    decreases if i < s.filesz then s.filesz - i else 0
  {
    if i >= s.filesz then []
    else [Call(s.va + i, 0, Some(i), Min(s.filesz - i, PAGE_SIZE))] + FileCalls(s, i + PAGE_SIZE)
  }

  /** Where the first loop leaves `i`. */
  function FileEnd(s: Segment, i: nat): (e: nat)
    ensures i <= e && s.filesz <= e && (i >= s.filesz ==> e == i) && (e - i) % PAGE_SIZE == 0
    decreases if i < s.filesz then s.filesz - i else 0
  {
    if i >= s.filesz then i else FileEnd(s, i + PAGE_SIZE)
  }

  function ZeroCalls(s: Segment, i: nat): seq<Call>
    decreases if i < s.memsz then s.memsz - i else 0
  {
    if i >= s.memsz then []
    else [Call(s.va + i, 0, None, Min(s.memsz - i, PAGE_SIZE))] + ZeroCalls(s, i + PAGE_SIZE)
  }

  function Start(s: Segment): nat { if Offset(s) != 0 then HeadLen(s) else 0 }

  function HeadCall(s: Segment): Call { Call(s.va, Offset(s), Some(0), HeadLen(s)) }

  function BodyCalls(s: Segment): seq<Call> {
    FileCalls(s, Start(s)) + ZeroCalls(s, FileEnd(s, Start(s)))
  }

  function Calls(s: Segment): seq<Call> {
    if Offset(s) != 0 then [HeadCall(s)] + BodyCalls(s) else BodyCalls(s)
  }

  // ----- Their effect -----

  type Pages = map<nat, seq<byte>>

  function Zeros(n: nat): (z: seq<byte>)
    ensures |z| == n && forall j :: 0 <= j < n ==> z[j] == 0
  {
    seq(n, _ => 0)
  }

  predicate Fits(s: Segment, c: Call) {
    c.offset + c.len <= PAGE_SIZE && (c.src.Some? ==> c.src.value + c.len <= |s.bin|)
  }

  /** page_alloc zeroes the page, then the bytes are copied in. */
  function NewPage(s: Segment, c: Call): (p: seq<byte>)
    requires Fits(s, c)
    ensures |p| == PAGE_SIZE
  {
    if c.src.None? then Zeros(PAGE_SIZE)
    else Zeros(c.offset) + s.bin[c.src.value..c.src.value + c.len] + Zeros(PAGE_SIZE - c.offset - c.len)
  }

  predicate AllFit(s: Segment, cs: seq<Call>) { forall j :: 0 <= j < |cs| ==> Fits(s, cs[j]) }

  /** page_insert puts the new page in place of what was mapped there. */
  function Apply(s: Segment, m: Pages, cs: seq<Call>): Pages
    requires AllFit(s, cs)
  {
    if cs == [] then m
    else
      var n := |cs| - 1;
      Apply(s, m, cs[..n])[cs[n].va / PAGE_SIZE := NewPage(s, cs[n])]
  }

  // ----- What a segment should look like -----

  function PageCount(s: Segment): nat {
    if s.memsz == 0 then 0 else (s.va + s.memsz - 1) / PAGE_SIZE - s.va / PAGE_SIZE + 1
  }

  /** The byte of the image at an address: the file's first, then zeros. */
  function ByteAt(s: Segment, a: nat): byte
    requires Valid(s)
  {
    if s.va <= a < s.va + s.filesz then s.bin[a - s.va] else 0
  }

  function ImagePage(s: Segment, p: nat): (r: seq<byte>)
    requires Valid(s)
    ensures |r| == PAGE_SIZE && forall j :: 0 <= j < PAGE_SIZE ==> r[j] == ByteAt(s, PAGE_SIZE * p + j)
  {
    seq(PAGE_SIZE, j requires 0 <= j => ByteAt(s, PAGE_SIZE * p + j))
  }

  ghost predicate Overlaps(s: Segment, p: nat) {
    exists k: nat :: k < s.memsz && Hits(s, k, p)
  }

  predicate Hits(s: Segment, k: nat, p: nat) { (s.va + k) / PAGE_SIZE == p }

  /** The calls map the pages of the segment in order, each once. */
  ghost predicate EachOnce(s: Segment, cs: seq<Call>) {
    |cs| == PageCount(s) && forall j: nat :: j < |cs| ==> cs[j].va / PAGE_SIZE == s.va / PAGE_SIZE + j
  }

  /** When the loader gets that right. */
  predicate Loadable(s: Segment) {
    Offset(s) == 0 || PAGE_SIZE - Offset(s) <= s.filesz || 0 < s.filesz == s.memsz
  }

  lemma OverlapsIff(s: Segment, p: nat)
    ensures Overlaps(s, p) <==> s.va / PAGE_SIZE <= p < s.va / PAGE_SIZE + PageCount(s)
  {
    if s.va / PAGE_SIZE <= p < s.va / PAGE_SIZE + PageCount(s) {
      var k := if p == s.va / PAGE_SIZE then 0 else PAGE_SIZE * p - s.va;
      assert Hits(s, k, p);
    }
  }

  predicate Right(s: Segment, c: Call, p: nat)
    requires Valid(s)
  {
    Fits(s, c) && c.va / PAGE_SIZE == p && NewPage(s, c) == ImagePage(s, p)
  }

  /** The calls bring in order the image of the pages from `p` on. */
  ghost predicate Brings(s: Segment, cs: seq<Call>, p: nat)
    requires Valid(s)
  {
    forall j: nat :: j < |cs| ==> Right(s, cs[j], p + j)
  }

  lemma BringsBoth(s: Segment, a: seq<Call>, b: seq<Call>, p: nat)
    requires Valid(s) && Brings(s, a, p) && Brings(s, b, p + |a|)
    ensures Brings(s, a + b, p)
  {
    forall j: nat | |a| <= j < |a + b| ensures Right(s, (a + b)[j], p + j) {
      assert Right(s, b[j - |a|], p + |a| + (j - |a|));
    }
  }

  lemma {:induction false} FileCallsAt(s: Segment, i: nat, j: nat)
    requires j < |FileCalls(s, i)|
    ensures var k := i + PAGE_SIZE * j;
      k < s.filesz && FileCalls(s, i)[j] == Call(s.va + k, 0, Some(k), Min(s.filesz - k, PAGE_SIZE))
    decreases j
  {
    if j > 0 {
      FileCallsAt(s, i + PAGE_SIZE, j - 1);
    }
  }

  lemma {:induction false} ZeroCallsAt(s: Segment, i: nat, j: nat)
    requires j < |ZeroCalls(s, i)|
    ensures var k := i + PAGE_SIZE * j;
      k < s.memsz && ZeroCalls(s, i)[j] == Call(s.va + k, 0, None, Min(s.memsz - k, PAGE_SIZE))
    decreases j
  {
    if j > 0 {
      ZeroCallsAt(s, i + PAGE_SIZE, j - 1);
    }
  }

  lemma FilePage(s: Segment, k: nat, p: nat)
    requires Valid(s) && s.va + k == PAGE_SIZE * p && k < s.filesz
    ensures Right(s, Call(s.va + k, 0, Some(k), Min(s.filesz - k, PAGE_SIZE)), p)
  {
    var c := Call(s.va + k, 0, Some(k), Min(s.filesz - k, PAGE_SIZE));
    var n, im := NewPage(s, c), ImagePage(s, p);
    assert forall j :: 0 <= j < PAGE_SIZE ==> n[j] == im[j];
  }

  lemma ZeroPage(s: Segment, k: nat, p: nat)
    requires Valid(s) && s.va + k == PAGE_SIZE * p && s.filesz <= k < s.memsz
    ensures Right(s, Call(s.va + k, 0, None, Min(s.memsz - k, PAGE_SIZE)), p)
  {
    var n, im := Zeros(PAGE_SIZE), ImagePage(s, p);
    assert forall j :: 0 <= j < PAGE_SIZE ==> n[j] == im[j];
  }

  lemma FileCallsMap(s: Segment, i: nat, p: nat)
    requires Valid(s) && s.va + i == PAGE_SIZE * p
    ensures Brings(s, FileCalls(s, i), p)
  {
    forall j: nat | j < |FileCalls(s, i)| ensures Right(s, FileCalls(s, i)[j], p + j) {
      FileCallsAt(s, i, j);
      FilePage(s, i + PAGE_SIZE * j, p + j);
    }
  }

  lemma ZeroCallsMap(s: Segment, i: nat, p: nat)
    requires Valid(s) && s.va + i == PAGE_SIZE * p && s.filesz <= i
    ensures Brings(s, ZeroCalls(s, i), p)
  {
    forall j: nat | j < |ZeroCalls(s, i)| ensures Right(s, ZeroCalls(s, i)[j], p + j) {
      ZeroCallsAt(s, i, j);
      ZeroPage(s, i + PAGE_SIZE * j, p + j);
    }
  }

  lemma {:induction false} ZeroCallsCount(s: Segment, i: nat)
    ensures |ZeroCalls(s, i)| == if i < s.memsz then (s.memsz - i + PAGE_SIZE - 1) / PAGE_SIZE else 0
    decreases if i < s.memsz then s.memsz - i else 0
  {
    if i < s.memsz {
      ZeroCallsCount(s, i + PAGE_SIZE);
    }
  }

  lemma {:induction false} FileEndIs(s: Segment, i: nat)
    ensures FileEnd(s, i) == i + PAGE_SIZE * |FileCalls(s, i)|
    ensures i < s.filesz ==> FileEnd(s, i) < s.filesz + PAGE_SIZE
    decreases if i < s.filesz then s.filesz - i else 0
  {
    if i < s.filesz {
      FileEndIs(s, i + PAGE_SIZE);
    }
  }

  lemma BodyBrings(s: Segment, p: nat)
    requires Valid(s) && s.va + Start(s) == PAGE_SIZE * p
    ensures Brings(s, BodyCalls(s), p)
  {
    var i := Start(s);
    FileCallsMap(s, i, p);
    FileEndIs(s, i);
    ZeroCallsMap(s, FileEnd(s, i), p + |FileCalls(s, i)|);
    BringsBoth(s, FileCalls(s, i), ZeroCalls(s, FileEnd(s, i)), p);
  }

  lemma CallsCount(s: Segment)
    requires Valid(s) && Loadable(s)
    ensures |Calls(s)| == PageCount(s)
  {
    FileEndIs(s, Start(s));
    ZeroCallsCount(s, FileEnd(s, Start(s)));
  }

  /** What a loadable segment's calls are. */
  lemma CallsMap(s: Segment)
    requires Valid(s) && Loadable(s)
    ensures Brings(s, Calls(s), s.va / PAGE_SIZE) && |Calls(s)| == PageCount(s)
  {
    var p := s.va / PAGE_SIZE;
    CallsCount(s);
    if Offset(s) == 0 {
      BodyBrings(s, p);
    } else {
      HeadIsImage(s);
      if PAGE_SIZE - Offset(s) <= s.filesz {
        BodyBrings(s, p + 1);
      }
      BringsBoth(s, [HeadCall(s)], BodyCalls(s), p);
    }
  }

  lemma HeadIsImage(s: Segment)
    requires Valid(s) && Offset(s) != 0
    ensures Right(s, HeadCall(s), s.va / PAGE_SIZE)
  {
    var n, im := NewPage(s, HeadCall(s)), ImagePage(s, s.va / PAGE_SIZE);
    assert forall j :: 0 <= j < PAGE_SIZE ==> n[j] == im[j];
  }

  /** The pages of a segment are mapped each exactly once iff it starts on a page, or its bytes of
      the file fill the first page, or there are such bytes and no zeros after them. */
  lemma EachOnceIff(s: Segment)
    requires Valid(s)
    ensures EachOnce(s, Calls(s)) <==> Loadable(s)
  {
    if Loadable(s) {
      CallsMap(s);
    } else if s.memsz > s.filesz {
      assert Calls(s)[1].va == s.va + s.filesz;
    }
  }

  lemma {:induction false} ApplyInOrder(s: Segment, m: Pages, cs: seq<Call>, first: nat, p: nat)
    requires AllFit(s, cs) && forall j: nat :: j < |cs| ==> cs[j].va / PAGE_SIZE == first + j
    ensures var u := Apply(s, m, cs);
      if first <= p < first + |cs| then p in u && u[p] == NewPage(s, cs[p - first])
      else (p in u <==> p in m) && (p in m ==> u[p] == m[p])
  {
    if cs != [] {
      ApplyInOrder(s, m, cs[..|cs| - 1], first, p);
    }
  }

  /** After loading, the pages that overlap the segment hold its image, which is the file's bytes and
      then zeros, and every other page is as it was. */
  lemma LoadsImage(s: Segment, m: Pages, p: nat)
    requires Valid(s) && Loadable(s)
    ensures AllFit(s, Calls(s))
    ensures var u := Apply(s, m, Calls(s));
      if Overlaps(s, p) then p in u && u[p] == ImagePage(s, p)
      else (p in u <==> p in m) && (p in m ==> u[p] == m[p])
  {
    CallsMap(s);
    OverlapsIff(s, p);
    BroughtIn(s, m, Calls(s), s.va / PAGE_SIZE, p);
  }

  lemma BroughtIn(s: Segment, m: Pages, cs: seq<Call>, first: nat, p: nat)
    requires Valid(s) && Brings(s, cs, first)
    ensures AllFit(s, cs)
    ensures var u := Apply(s, m, cs);
      if first <= p < first + |cs| then p in u && u[p] == ImagePage(s, p)
      else (p in u <==> p in m) && (p in m ==> u[p] == m[p])
  {
    ApplyInOrder(s, m, cs, first, p);
    if first <= p < first + |cs| {
      assert Right(s, cs[p - first], first + (p - first));
    }
  }

  lemma {:induction false} LastWins(s: Segment, m: Pages, cs: seq<Call>, k: nat)
    requires AllFit(s, cs) && k < |cs|
    requires forall j :: k < j < |cs| ==> cs[j].va / PAGE_SIZE != cs[k].va / PAGE_SIZE
    ensures var u := Apply(s, m, cs); var p := cs[k].va / PAGE_SIZE; p in u && u[p] == NewPage(s, cs[k])
  {
    if k < |cs| - 1 {
      LastWins(s, m, cs[..|cs| - 1], k);
    }
  }

  /** Otherwise, if zeros follow, they are put into a second page at the same address, and whatever the
      file had for the first page is gone. */
  lemma FileBytesLost(s: Segment, m: Pages)
    requires Valid(s) && !Loadable(s) && s.filesz < s.memsz
    ensures AllFit(s, Calls(s))
    ensures var u := Apply(s, m, Calls(s)); var p := s.va / PAGE_SIZE; p in u && u[p] == Zeros(PAGE_SIZE)
  {
    var cs, zs := Calls(s), ZeroCalls(s, s.filesz);
    assert cs == [HeadCall(s)] + zs;
    HeadIsImage(s);
    forall j: nat | 0 < j < |cs|
      ensures cs[j].va == s.va + s.filesz + PAGE_SIZE * (j - 1) && cs[j].src == None && Fits(s, cs[j])
    {
      ZeroCallsAt(s, s.filesz, j - 1);
    }
    LastWins(s, m, cs, 1);
  }

  // ----- As it runs -----

  lemma CallsFit(s: Segment)
    requires Valid(s)
    ensures AllFit(s, Calls(s))
  {
    var i := Start(s);
    forall j: nat | j < |FileCalls(s, i)| ensures Fits(s, FileCalls(s, i)[j]) {
      FileCallsAt(s, i, j);
    }
    forall j: nat | j < |ZeroCalls(s, FileEnd(s, i))| ensures Fits(s, ZeroCalls(s, FileEnd(s, i))[j]) {
      ZeroCallsAt(s, FileEnd(s, i), j);
    }
  }

  lemma ApplyNext(s: Segment, m: Pages, cs: seq<Call>, n: nat, c: Call, rest: seq<Call>)
    requires AllFit(s, cs) && n <= |cs| && cs[n..] == [c] + rest
    ensures n < |cs| && cs[n] == c && cs[n + 1..] == rest && cs[..n + 1] == cs[..n] + [c]
    ensures Apply(s, m, cs[..n + 1]) == Apply(s, m, cs[..n])[c.va / PAGE_SIZE := NewPage(s, c)]
  {
    assert |cs[n..]| == 1 + |rest|;
    assert cs[n] == cs[n..][0] && cs[n + 1..] == cs[n..][1..];
    assert cs[..n + 1][..n] == cs[..n];
  }

  lemma FileCallsNext(s: Segment, i: nat, zs: seq<Call>)
    ensures FileCalls(s, i) + zs ==
      if i >= s.filesz then zs
      else [Call(s.va + i, 0, Some(i), Min(s.filesz - i, PAGE_SIZE))] + (FileCalls(s, i + PAGE_SIZE) + zs)
  {
  }

  class Loader {
    var pages: Pages
    var calls: seq<Call>
    /** How many more pages page_alloc can give. */
    var room: nat

    /** load_icode_mapper; the result is false for -E_NO_MEM. */
    method MapPage(s: Segment, c: Call) returns (ok: bool)
      requires Fits(s, c)
      modifies this
      ensures ok <==> old(room) > 0
      ensures ok ==> room == old(room) - 1 && calls == old(calls) + [c]
      ensures ok ==> pages == old(pages)[c.va / PAGE_SIZE := NewPage(s, c)]
      ensures !ok ==> room == 0 && calls == old(calls) && pages == old(pages)
    {
      if room == 0 {
        return false;
      }
      room := room - 1;
      pages := pages[c.va / PAGE_SIZE := NewPage(s, c)];
      calls := calls + [c];
      return true;
    }

    /** The calls made are the first of the plan, there was room for them, and `rest` are to come. */
    ghost predicate Did(s: Segment, plan: seq<Call>, m: Pages, had: nat, rest: seq<Call>)
      reads this
    {
      && AllFit(s, plan) && |calls| <= |plan| && calls == plan[..|calls|] && plan[|calls|..] == rest
      && pages == Apply(s, m, calls) && room == had - |calls|
    }

    /** The plan was cut short for want of a page. */
    ghost predicate Short(s: Segment, plan: seq<Call>, m: Pages, had: nat)
      reads this
    {
      had < |plan| && |calls| == had && Did(s, plan, m, had, plan[had..])
    }

    /** The next call of the plan. */
    method Next(s: Segment, c: Call, ghost plan: seq<Call>, ghost m: Pages, ghost had: nat, ghost rest: seq<Call>)
      returns (ok: bool)
      requires Did(s, plan, m, had, [c] + rest)
      modifies this
      ensures if ok then Did(s, plan, m, had, rest) else Short(s, plan, m, had)
    {
      ApplyNext(s, m, plan, |calls|, c, rest);
      ok := MapPage(s, c);
    }

    /** The first loop. */
    method LoadFile(s: Segment, start: nat, ghost plan: seq<Call>, ghost m: Pages, ghost had: nat)
      returns (ok: bool, i: nat)
      requires Did(s, plan, m, had, FileCalls(s, start) + ZeroCalls(s, FileEnd(s, start)))
      modifies this
      ensures if ok then i == FileEnd(s, start) && Did(s, plan, m, had, ZeroCalls(s, i)) else Short(s, plan, m, had)
    {
      i := start;
      ghost var zeros := ZeroCalls(s, FileEnd(s, start));
      while i < s.filesz
        invariant Did(s, plan, m, had, FileCalls(s, i) + zeros) && FileEnd(s, i) == FileEnd(s, start)
        decreases if i < s.filesz then s.filesz - i else 0
      {
        var c := Call(s.va + i, 0, Some(i), Min(s.filesz - i, PAGE_SIZE));
        FileCallsNext(s, i, zeros);
        ok := Next(s, c, plan, m, had, FileCalls(s, i + PAGE_SIZE) + zeros);
        if !ok {
          return;
        }
        i := i + PAGE_SIZE;
      }
      FileCallsNext(s, i, zeros);
      ok := true;
    }

    /** The second loop. */
    method LoadZeros(s: Segment, start: nat, ghost plan: seq<Call>, ghost m: Pages, ghost had: nat) returns (ok: bool)
      requires Did(s, plan, m, had, ZeroCalls(s, start))
      modifies this
      ensures if ok then Did(s, plan, m, had, []) else Short(s, plan, m, had)
    {
      var i := start;
      while i < s.memsz
        invariant Did(s, plan, m, had, ZeroCalls(s, i))
        decreases if i < s.memsz then s.memsz - i else 0
      {
        ok := Next(s, Call(s.va + i, 0, None, Min(s.memsz - i, PAGE_SIZE)), plan, m, had, ZeroCalls(s, i + PAGE_SIZE));
        if !ok {
          return;
        }
        i := i + PAGE_SIZE;
      }
      ok := true;
    }

    /** Makes exactly the calls of the plan, or stops at the first for which there is no page. */
    method LoadSeg(s: Segment) returns (ok: bool)
      requires Valid(s) && calls == []
      modifies this
      ensures ok <==> |Calls(s)| <= old(room)
      ensures AllFit(s, Calls(s)) && calls == if ok then Calls(s) else Calls(s)[..old(room)]
      ensures pages == Apply(s, old(pages), calls)
    {
      ghost var m, had, plan := pages, room, Calls(s);
      CallsFit(s);
      assert plan[0..] == plan;
      var i := 0;
      var offset := s.va % PAGE_SIZE;
      if offset != 0 {
        i := Min(s.filesz, PAGE_SIZE - offset);
        ok := Next(s, Call(s.va, offset, Some(0), i), plan, m, had, BodyCalls(s));
        if !ok {
          return;
        }
      }
      ok, i := LoadFile(s, i, plan, m, had);
      if ok {
        ok := LoadZeros(s, i, plan, m, had);
        assert ok ==> plan[..|plan|] == plan;
      }
    }
  }
}
