/** The block layer of the file server (fs/fs.c): the free-block bitmap and its copy on disk, direct
    and indirect block numbers, truncation. */
module Blocks {
  import opened Basics
  import opened Bitmaps
  import opened DiskLayout

  const NDIRECT := 10
  const NINDIRECT := 1024
  const BLOCK_SIZE := 4096
  const BLOCK_SIZE_BIT := 32768

  datatype Error = NotFound | NoDisk | NoMem | Invalid

  type Words = w: seq<nat> | |w| == NINDIRECT witness ZeroWords()

  function ZeroWords(): (w: seq<nat>)
    ensures |w| == NINDIRECT && forall k :: 0 <= k < NINDIRECT ==> w[k] == 0
  {
    seq(NINDIRECT, _ => 0)
  }

  type Directs = d: seq<nat> | |d| == NDIRECT witness seq(NDIRECT, _ => 0)

  datatype File = File(size: nat, direct: Directs, indirect: nat)

  /** `bitmap` is in memory and `ondisk` what write_block has put on the disk; a set bit is a free
      block.  `cache` holds the blocks mapped in memory, `disk` what the others would read as, and
      `pages` how many more blocks can be mapped. */
  datatype Fs = Fs(nblocks: nat, bitmap: seq<Word32>, ondisk: seq<Word32>, files: map<nat, File>,
                   cache: map<nat, Words>, disk: map<nat, Words>, pages: nat)

  function Content(fs: Fs, b: nat): Words {
    if b in fs.cache then fs.cache[b] else if b in fs.disk then fs.disk[b] else ZeroWords()
  }

  // ----- What owns a block -----

  /** The block number in slot `n` of file `f`, 0 for none. */
  function Slot(fs: Fs, f: nat, n: nat): nat {
    if f !in fs.files then 0
    else if n < NDIRECT then fs.files[f].direct[n]
    else if n < NINDIRECT && fs.files[f].indirect != 0 then Content(fs, fs.files[f].indirect)[n]
    else 0
  }

  datatype Owner = Data(f: nat, n: nat) | Index(f: nat)

  function BlockOf(fs: Fs, o: Owner): nat {
    match o
    case Data(f, n) => Slot(fs, f, n)
    case Index(f) => if f in fs.files then fs.files[f].indirect else 0
  }

  predicate IsFree(fs: Fs, b: nat) { b < fs.nblocks && Bit(fs.bitmap, b) }

  /** Every block that a file names is on the disk and in use, and is named once. */
  ghost predicate Owned(fs: Fs) {
    && (forall o :: BlockOf(fs, o) != 0 ==> InUse(fs, BlockOf(fs, o)))
    && (forall o, q :: BlockOf(fs, o) != 0 && BlockOf(fs, o) == BlockOf(fs, q) ==> o == q)
  }

  predicate InUse(fs: Fs, b: nat) { FIRST_BLOCK <= b < fs.nblocks && !Bit(fs.bitmap, b) }

  /** The disk never shows as free a block that is in use. */
  ghost predicate Synced(fs: Fs) {
    && Sized(fs)
    && (forall b: nat :: Bit(fs.ondisk, b) ==> Bit(fs.bitmap, b))
  }

  /** The bitmap has a bit for every block, in memory and on disk. */
  predicate Sized(fs: Fs) { |fs.ondisk| == |fs.bitmap| && fs.nblocks <= 32 * |fs.bitmap| }

  ghost predicate Inv(fs: Fs) { Owned(fs) && Synced(fs) }

  // ----- Allocation -----

  function FirstFree(fs: Fs, from: nat): (r: Option<nat>)
    decreases fs.nblocks - from
  {
    if fs.nblocks <= from then None
    else if Bit(fs.bitmap, from) then Some(from)
    else FirstFree(fs, from + 1)
  }

  /** write_block of the bitmap block that covers block `b`. */
  function SyncBitmap(bitmap: seq<Word32>, ondisk: seq<Word32>, b: nat): (r: seq<Word32>)
    requires |ondisk| == |bitmap|
    ensures |r| == |bitmap|
  {
    seq(|bitmap|, k requires 0 <= k < |bitmap| =>
      if k / NINDIRECT == b / BLOCK_SIZE_BIT then bitmap[k] else ondisk[k])
  }

  function AllocNum(fs: Fs): (r: (Fs, Option<nat>))
    requires Sized(fs)
    ensures Sized(r.0)
  {
    match FirstFree(fs, FIRST_BLOCK)
    case None => (fs, None)
    case Some(b) =>
      if |fs.bitmap| <= b / 32 then (fs, None)
      else
        var bits := Put(fs.bitmap, b, false);
        (fs.(bitmap := bits, ondisk := SyncBitmap(bits, fs.ondisk, b)), Some(b))
  }

  function FreeBlock(fs: Fs, b: nat): (r: Fs)
    ensures Sized(fs) ==> Sized(r)
  {
    if b == 0 || fs.nblocks <= b || |fs.bitmap| <= b / 32 then fs
    else fs.(bitmap := Put(fs.bitmap, b, true))
  }

  /** alloc_block: find a number, then map a page for it unless one is mapped already. */
  function AllocBlock(fs: Fs): (r: (Fs, Result<nat, Error>))
    requires Sized(fs)
    ensures Sized(r.0)
  {
    var (s, b) := AllocNum(fs);
    if b.None? then (s, Err(NoDisk))
    else if b.value in s.cache then (s, Ok(b.value))
    else if s.pages == 0 then (FreeBlock(s, b.value), Err(NoMem))
    else (s.(cache := s.cache[b.value := ZeroWords()], pages := s.pages - 1), Ok(b.value))
  }

  /** read_block of a block in use. */
  function ReadBlock(fs: Fs, b: nat): (Fs, Result<(), Error>) {
    if b in fs.cache then (fs, Ok(()))
    else if fs.pages == 0 then (fs, Err(NoMem))
    else (fs.(cache := fs.cache[b := Content(fs, b)], pages := fs.pages - 1), Ok(()))
  }

  // ----- Files -----

  /** file_block_walk: make slot `n` of the file reachable, with its index block in memory. */
  function BlockWalk(fs: Fs, f: nat, n: nat, alloc: bool): (result: (Fs, Result<(), Error>))
    requires f in fs.files && Sized(fs)
    ensures Sized(result.0) && result.0.files.Keys == fs.files.Keys
  {
    if n < NDIRECT then (fs, Ok(()))
    else if NINDIRECT <= n then (fs, Err(Invalid))
    else if fs.files[f].indirect != 0 then ReadBlock(fs, fs.files[f].indirect)
    else if !alloc then (fs, Err(NotFound))
    else
      var (s, r) := AllocBlock(fs);
      if r.Err? then (s, Err(r.error))
      else ReadBlock(s.(files := s.files[f := fs.files[f].(indirect := r.value)]), r.value)
  }

  /** Storing through the pointer that file_block_walk returned. */
  function SetSlot(fs: Fs, f: nat, n: nat, v: nat): Fs {
    if f !in fs.files then fs
    else if n < NDIRECT then fs.(files := fs.files[f := fs.files[f].(direct := fs.files[f].direct[n := v])])
    else if n < NINDIRECT then
      fs.(cache := fs.cache[fs.files[f].indirect := Content(fs, fs.files[f].indirect)[n := v]])
    else fs
  }

  function MapBlock(fs: Fs, f: nat, n: nat, alloc: bool): (result: (Fs, Result<nat, Error>))
    requires f in fs.files && Sized(fs)
    ensures Sized(result.0) && result.0.files.Keys == fs.files.Keys
  {
    var (s, r) := BlockWalk(fs, f, n, alloc);
    if r.Err? then (s, Err(r.error))
    else if Slot(s, f, n) != 0 then (s, Ok(Slot(s, f, n)))
    else if !alloc then (s, Err(NotFound))
    else
      var (u, b) := AllocBlock(s);
      if b.Err? then (u, b) else (SetSlot(u, f, n, b.value), b)
  }

  function ClearBlock(fs: Fs, f: nat, n: nat): (result: (Fs, Result<(), Error>))
    requires f in fs.files && Sized(fs)
    ensures Sized(result.0) && result.0.files.Keys == fs.files.Keys
  {
    var (s, r) := BlockWalk(fs, f, n, false);
    if r.Err? then (s, r)
    else if Slot(s, f, n) == 0 then (s, r)
    else (SetSlot(FreeBlock(s, Slot(s, f, n)), f, n, 0), r)
  }

  // ----- Effects -----

  lemma FirstFreeIsLowest(fs: Fs, from: nat)
    ensures var r := FirstFree(fs, from);
      match r
      case None => forall b: nat :: from <= b < fs.nblocks ==> !Bit(fs.bitmap, b)
      case Some(b) => from <= b < fs.nblocks && Bit(fs.bitmap, b)
                      && forall c: nat :: from <= c < b ==> !Bit(fs.bitmap, c)
    decreases fs.nblocks - from
  {
    if from < fs.nblocks && !Bit(fs.bitmap, from) {
      FirstFreeIsLowest(fs, from + 1);
    }
  }

  lemma SyncedBits(bitmap: seq<Word32>, ondisk: seq<Word32>, b: nat, m: nat)
    requires |ondisk| == |bitmap|
    ensures Bit(SyncBitmap(bitmap, ondisk, b), m) <==>
            if m / BLOCK_SIZE_BIT == b / BLOCK_SIZE_BIT then Bit(bitmap, m) else Bit(ondisk, m)
  {
    assert m / 32 / NINDIRECT == m / BLOCK_SIZE_BIT;
  }

  /** Files and cached tables are as before: so are all slots. */
  ghost predicate SameSlots(fs: Fs, fs': Fs) {
    forall o :: BlockOf(fs', o) == BlockOf(fs, o)
  }

  /** A block was free and is now in use; nothing else changed hands. */
  ghost predicate Took(fs: Fs, fs': Fs, b: nat) {
    && FIRST_BLOCK <= b < fs.nblocks && Bit(fs.bitmap, b)
    && fs'.nblocks == fs.nblocks
    && (forall m: nat :: Bit(fs'.bitmap, m) <==> Bit(fs.bitmap, m) && m != b)
  }

  lemma AllocNumTakes(fs: Fs)
    requires Inv(fs)
    ensures var (s, r) := AllocNum(fs);
      && (r.None? <==> forall b: nat :: FIRST_BLOCK <= b < fs.nblocks ==> !Bit(fs.bitmap, b))
      && (r.None? ==> s == fs)
      && (r.Some? ==>
           (&& Took(fs, s, r.value) && Synced(s)
            && s == fs.(bitmap := s.bitmap, ondisk := s.ondisk)
            && (forall c: nat :: FIRST_BLOCK <= c < r.value ==> !Bit(fs.bitmap, c))
            && !Bit(s.ondisk, r.value)))
  {
    FirstFreeIsLowest(fs, FIRST_BLOCK);
    var (s, r) := AllocNum(fs);
    if r.Some? {
      forall m: nat ensures Bit(s.ondisk, m) <==>
        if m / BLOCK_SIZE_BIT == r.value / BLOCK_SIZE_BIT then Bit(s.bitmap, m) else Bit(fs.ondisk, m)
      {
        SyncedBits(s.bitmap, fs.ondisk, r.value, m);
      }
    }
  }

  /** free_block marks that block free, unless it is block 0 or not on the disk. */
  lemma FreeBlockFrees(fs: Fs, b: nat)
    requires fs.nblocks <= 32 * |fs.bitmap|
    ensures var s := FreeBlock(fs, b);
      s == fs.(bitmap := s.bitmap) && |s.bitmap| == |fs.bitmap|
      && forall m: nat :: Bit(s.bitmap, m) <==> Bit(fs.bitmap, m) || (m == b && 0 < b < fs.nblocks)
  {
  }

  /** Same answers about every block. */
  ghost predicate SameBits(fs: Fs, fs': Fs) {
    fs'.nblocks == fs.nblocks && forall m: nat :: Bit(fs'.bitmap, m) <==> Bit(fs.bitmap, m)
  }

  lemma SlotsFromTables(fs: Fs, s: Fs)
    requires s.files == fs.files
    requires forall f :: f in fs.files && fs.files[f].indirect != 0 ==>
      Content(s, fs.files[f].indirect) == Content(fs, fs.files[f].indirect)
    ensures SameSlots(fs, s)
  {
  }

  lemma UnownedIfFree(fs: Fs, b: nat)
    requires Owned(fs) && Bit(fs.bitmap, b) && b != 0
    ensures forall o :: BlockOf(fs, o) != b
  {
  }

  /** alloc_block: on success one free block is taken and mapped, cleared unless it was cached
      already; on failure nothing is taken.  No file notices either way. */
  lemma AllocBlockTakes(fs: Fs)
    requires Inv(fs)
    ensures var (s, r) := AllocBlock(fs);
      && Inv(s) && SameSlots(fs, s) && s.files == fs.files && s.disk == fs.disk
      && (r.Err? ==> SameBits(fs, s) && s.cache == fs.cache)
      && (r.Ok? ==>
           (&& Took(fs, s, r.value) && r.value in s.cache
            && AllocNum(fs).1 == Some(r.value)
            && Content(s, r.value) == (if r.value in fs.cache then fs.cache[r.value] else ZeroWords())
            && (forall c: nat :: c != r.value ==> Content(s, c) == Content(fs, c))
            && (forall o :: BlockOf(s, o) != r.value)))
  {
    var (u, b) := AllocNum(fs);
    AllocNumTakes(fs);
    if b.Some? {
      UnownedIfFree(fs, b.value);
      var (s, r) := AllocBlock(fs);
      forall f | f in fs.files && fs.files[f].indirect != 0 ensures fs.files[f].indirect != b.value {
        assert BlockOf(fs, Index(f)) != b.value;
      }
      SlotsFromTables(fs, s);
    }
  }

  /** When alloc_block fails: no block is free, or the lowest free one is not in memory and no page is. */
  lemma AllocBlockIff(fs: Fs)
    requires Inv(fs)
    ensures var (s, r) := AllocBlock(fs);
      && (r == Err(NoDisk) <==> forall b: nat :: FIRST_BLOCK <= b < fs.nblocks ==> !Bit(fs.bitmap, b))
      && (r.Ok? && r.value !in fs.cache ==> 0 < fs.pages)
      && (r.Err? && r != Err(NoDisk) ==>
           r == Err(NoMem) && fs.pages == s.pages == 0 && AllocNum(fs).1.Some? && AllocNum(fs).1.value !in fs.cache)
  {
    AllocNumTakes(fs);
  }

  // ----- file_block_walk -----

  /** Slot `n` can be stored to: a direct one, or in an index block that is in memory. */
  predicate Reachable(fs: Fs, f: nat, n: nat) {
    f in fs.files &&
    (n < NDIRECT || (n < NINDIRECT && fs.files[f].indirect != 0 && fs.files[f].indirect in fs.cache))
  }

  /** Does file_block_walk create an index block here? */
  predicate Creates(fs: Fs, f: nat, n: nat, alloc: bool)
    requires f in fs.files
  {
    NDIRECT <= n < NINDIRECT && fs.files[f].indirect == 0 && alloc
  }

  /** The block that would become the index block has no leftovers where slots are: it is not
      cached, or its cached words are zero. */
  predicate Clean(fs: Fs) {
    var r := FirstFree(fs, FIRST_BLOCK);
    r.Some? && r.value in fs.cache ==> forall k :: NDIRECT <= k < NINDIRECT ==> fs.cache[r.value][k] == 0
  }

  lemma ReadBlockKeeps(fs: Fs, b: nat)
    ensures var (s, r) := ReadBlock(fs, b);
      && s.files == fs.files && s.bitmap == fs.bitmap && s.ondisk == fs.ondisk && s.nblocks == fs.nblocks
      && (forall c: nat :: Content(s, c) == Content(fs, c)) && SameSlots(fs, s)
      && (r.Ok? ==> b in s.cache)
  {
    var (s, r) := ReadBlock(fs, b);
    assert forall c: nat :: Content(s, c) == Content(fs, c);
    SlotsFromTables(fs, s);
  }

  /** All data slots are as before. */
  ghost predicate SameData(fs: Fs, fs': Fs) {
    forall f: nat, n: nat :: Slot(fs', f, n) == Slot(fs, f, n)
  }

  lemma DataIsSlots(fs: Fs, fs': Fs)
    requires forall f: nat, n: nat :: BlockOf(fs', Data(f, n)) == BlockOf(fs, Data(f, n))
    ensures SameData(fs, fs')
  {
    forall f: nat, n: nat ensures Slot(fs', f, n) == Slot(fs, f, n) {
      assert BlockOf(fs', Data(f, n)) == BlockOf(fs, Data(f, n));
    }
  }

  lemma CreateIndex(fs: Fs, f: nat)
    requires Inv(fs) && f in fs.files && fs.files[f].indirect == 0 && AllocBlock(fs).1.Ok?
    ensures var b := AllocBlock(fs).1.value;
      var s := AllocBlock(fs).0.(files := fs.files[f := fs.files[f].(indirect := b)]);
      && b in s.cache && Synced(s) && Took(fs, s, b)
      && (forall o :: o != Index(f) && !(o.Data? && o.f == f && NDIRECT <= o.n) ==> BlockOf(s, o) == BlockOf(fs, o))
      && BlockOf(s, Index(f)) == b
      && (forall n: nat :: NDIRECT <= n < NINDIRECT ==>
           (Slot(s, f, n) == if b in fs.cache then fs.cache[b][n] else 0))
      && (Clean(fs) ==> SameData(fs, s) && Owned(s))
  {
    AllocBlockTakes(fs);
    AllocNumTakes(fs);
    var u := AllocBlock(fs).0;
    var b := AllocBlock(fs).1.value;
    var s := u.(files := fs.files[f := fs.files[f].(indirect := b)]);
    assert forall c: nat :: Content(s, c) == Content(u, c);
    forall o | o != Index(f) && !(o.Data? && o.f == f && NDIRECT <= o.n) ensures BlockOf(s, o) == BlockOf(fs, o) {
      assert BlockOf(u, o) == BlockOf(fs, o);
    }
    assert forall n: nat :: NDIRECT <= n ==> Slot(fs, f, n) == 0;
    if Clean(fs) {
      assert forall o :: o != Index(f) ==> BlockOf(s, o) == BlockOf(fs, o);
      DataIsSlots(fs, s);
      GainKeepsOwned(fs, s, Index(f), b);
    }
  }

  /** Naming a block just taken keeps ownership. */
  lemma GainKeepsOwned(fs: Fs, s: Fs, x: Owner, b: nat)
    requires Owned(fs) && Took(fs, s, b) && BlockOf(s, x) == b
    requires forall o :: o != x ==> BlockOf(s, o) == BlockOf(fs, o)
    ensures Owned(s)
  {
    UnownedIfFree(fs, b);
    forall o | BlockOf(s, o) != 0 ensures InUse(s, BlockOf(s, o)) {
      if o != x {
        assert InUse(fs, BlockOf(fs, o));
      }
    }
  }

  /** A successful walk leaves a slot that can be stored to, whatever the index block shows. */
  lemma WalkReaches(fs: Fs, f: nat, n: nat, alloc: bool)
    requires Sized(fs) && f in fs.files
    ensures var (s, r) := BlockWalk(fs, f, n, alloc); r.Ok? ==> Reachable(s, f, n)
  {
    FirstFreeIsLowest(fs, FIRST_BLOCK);
  }

  lemma AllocReaches(fs: Fs, f: nat, n: nat)
    requires Sized(fs) && Reachable(fs, f, n)
    ensures Reachable(AllocBlock(fs).0, f, n)
  {
  }

  lemma WalkKeeps(fs: Fs, f: nat, n: nat, alloc: bool)
    requires Inv(fs) && f in fs.files && (Creates(fs, f, n, alloc) ==> Clean(fs))
    ensures var (s, r) := BlockWalk(fs, f, n, alloc);
      && Inv(s) && SameData(fs, s) && s.files.Keys == fs.files.Keys
      && (r.Ok? ==> Reachable(s, f, n))
      && (!Creates(fs, f, n, alloc) ==> SameSlots(fs, s) && SameBits(fs, s) && s.files == fs.files)
  {
    if Creates(fs, f, n, alloc) {
      AllocBlockTakes(fs);
      if AllocBlock(fs).1.Ok? {
        CreateIndex(fs, f);
        var b := AllocBlock(fs).1.value;
        ReadBlockKeeps(AllocBlock(fs).0.(files := fs.files[f := fs.files[f].(indirect := b)]), b);
      }
    } else if NDIRECT <= n < NINDIRECT && fs.files[f].indirect != 0 {
      var i := fs.files[f].indirect;
      ReadBlockKeeps(fs, i);
      OwnedSame(fs, ReadBlock(fs, i).0);
    }
  }

  /** Forgetting names keeps ownership, as long as what is still named stays in use. */
  lemma OwnedShrinks(fs: Fs, s: Fs)
    requires Owned(fs)
    requires forall o :: BlockOf(s, o) == 0 || BlockOf(s, o) == BlockOf(fs, o)
    requires forall o :: BlockOf(s, o) != 0 ==> InUse(s, BlockOf(s, o))
    ensures Owned(s)
  {
    forall o, q | BlockOf(s, o) != 0 && BlockOf(s, o) == BlockOf(s, q) ensures o == q {
      assert BlockOf(fs, o) == BlockOf(fs, q);
    }
  }

  lemma OwnedSame(fs: Fs, s: Fs)
    requires Inv(fs) && SameSlots(fs, s) && s.bitmap == fs.bitmap && s.ondisk == fs.ondisk && s.nblocks == fs.nblocks
    ensures Inv(s)
  {
    forall o | BlockOf(s, o) != 0 ensures InUse(s, BlockOf(s, o)) {
      assert InUse(fs, BlockOf(fs, o));
    }
  }

  // ----- Storing a slot -----

  lemma SetSlotEffect(fs: Fs, f: nat, n: nat, v: nat)
    requires Owned(fs) && Reachable(fs, f, n)
    ensures var s := SetSlot(fs, f, n, v);
      && (forall o :: BlockOf(s, o) == if o == Data(f, n) then v else BlockOf(fs, o))
      && s == fs.(files := s.files, cache := s.cache) && s.files.Keys == fs.files.Keys
      && (forall g :: g in fs.files ==> s.files[g].size == fs.files[g].size)
  {
    var s := SetSlot(fs, f, n, v);
    if n < NDIRECT {
      assert forall c: nat :: Content(s, c) == Content(fs, c);
    } else {
      var i := fs.files[f].indirect;
      assert forall c: nat :: c != i ==> Content(s, c) == Content(fs, c);
      forall g | g in fs.files && g != f && fs.files[g].indirect != 0 ensures fs.files[g].indirect != i {
        assert BlockOf(fs, Index(g)) == fs.files[g].indirect && BlockOf(fs, Index(f)) == i;
      }
    }
  }

  // ----- file_map_block and file_clear_block -----

  /** Filling an empty slot with a block just allocated. */
  lemma FillSlot(s: Fs, f: nat, n: nat)
    requires Inv(s) && Reachable(s, f, n) && Slot(s, f, n) == 0 && AllocBlock(s).1.Ok?
    ensures var (u, b) := AllocBlock(s); var w := SetSlot(u, f, n, b.value);
      && Inv(w) && w.files.Keys == s.files.Keys && Slot(w, f, n) == b.value != 0
      && Took(s, w, b.value) && BlockOf(w, Index(f)) == BlockOf(s, Index(f))
      && (forall g: nat, m: nat :: g != f || m != n ==> Slot(w, g, m) == Slot(s, g, m))
  {
    AllocBlockTakes(s);
    var (u, b) := AllocBlock(s);
    SetSlotEffect(u, f, n, b.value);
    var w := SetSlot(u, f, n, b.value);
    assert Took(s, w, b.value);
    GainKeepsOwned(s, w, Data(f, n), b.value);
    assert BlockOf(w, Data(f, n)) == b.value;
    forall g: nat, m: nat | g != f || m != n ensures Slot(w, g, m) == Slot(s, g, m) {
      assert BlockOf(w, Data(g, m)) == BlockOf(s, Data(g, m));
    }
  }

  /** The blocks that a file has gained, as index block or in slot `n`. */
  ghost function Gained(fs: Fs, s: Fs, f: nat, n: nat): set<nat> {
    (if BlockOf(s, Index(f)) != BlockOf(fs, Index(f)) then {BlockOf(s, Index(f))} else {})
    + (if Slot(s, f, n) != Slot(fs, f, n) then {Slot(s, f, n)} else {})
  }

  /** Exactly the blocks of the set were free and are in use. */
  ghost predicate TookAll(fs: Fs, s: Fs, bs: set<nat>) {
    && (forall b :: b in bs ==> FIRST_BLOCK <= b < fs.nblocks && Bit(fs.bitmap, b))
    && (forall m: nat :: Bit(s.bitmap, m) <==> Bit(fs.bitmap, m) && m !in bs)
  }

  /** file_block_walk takes the index block that it makes, and nothing else. */
  lemma WalkTakes(fs: Fs, f: nat, n: nat, alloc: bool)
    requires Inv(fs) && f in fs.files && (Creates(fs, f, n, alloc) ==> Clean(fs))
    ensures var (s, r) := BlockWalk(fs, f, n, alloc); var i := BlockOf(s, Index(f));
      TookAll(fs, s, if i != BlockOf(fs, Index(f)) then {i} else {}) && s.nblocks == fs.nblocks
      && (fs.files[f].indirect != 0 ==> i == fs.files[f].indirect)
  {
    if Creates(fs, f, n, alloc) {
      AllocBlockTakes(fs);
      if AllocBlock(fs).1.Ok? {
        CreateIndex(fs, f);
      }
    } else {
      WalkKeeps(fs, f, n, alloc);
      assert BlockOf(BlockWalk(fs, f, n, alloc).0, Index(f)) == BlockOf(fs, Index(f));
    }
  }

  /** file_map_block takes the block of the slot, if it had none, and the index block, if that was missing
      and is needed; it leaks none. */
  lemma MapBlockTakes(fs: Fs, f: nat, n: nat, alloc: bool)
    requires Inv(fs) && f in fs.files && (Creates(fs, f, n, alloc) ==> Clean(fs))
    ensures var (s, r) := MapBlock(fs, f, n, alloc);
      && TookAll(fs, s, Gained(fs, s, f, n))
      && (fs.files[f].indirect != 0 ==> BlockOf(s, Index(f)) == fs.files[f].indirect)
  {
    WalkKeeps(fs, f, n, alloc);
    WalkTakes(fs, f, n, alloc);
    var (u, r) := BlockWalk(fs, f, n, alloc);
    if r.Ok? && Slot(u, f, n) == 0 && alloc {
      AllocBlockTakes(u);
      if AllocBlock(u).1.Ok? {
        FillSlot(u, f, n);
      } else {
        assert BlockOf(AllocBlock(u).0, Index(f)) == BlockOf(u, Index(f));
        SameSlotsData(u, AllocBlock(u).0);
      }
    }
  }

  /** file_map_block: the slot then holds a block of its own, nothing else changed hands, and a slot
      that had one keeps it. */
  lemma MapBlockKeeps(fs: Fs, f: nat, n: nat, alloc: bool)
    requires Inv(fs) && f in fs.files && (Creates(fs, f, n, alloc) ==> Clean(fs))
    ensures var (s, r) := MapBlock(fs, f, n, alloc);
      && Inv(s) && s.files.Keys == fs.files.Keys
      && (r.Err? ==> SameData(fs, s))
      && (r.Ok? ==> r.value == Slot(s, f, n) != 0)
      && (r.Ok? && Slot(fs, f, n) != 0 ==> r.value == Slot(fs, f, n))
      && (forall g: nat, m: nat :: g != f || m != n ==> Slot(s, g, m) == Slot(fs, g, m))
      && TookAll(fs, s, Gained(fs, s, f, n))
  {
    MapBlockTakes(fs, f, n, alloc);
    WalkKeeps(fs, f, n, alloc);
    var (s, r) := BlockWalk(fs, f, n, alloc);
    if r.Ok? && Slot(s, f, n) == 0 && alloc {
      AllocBlockTakes(s);
      if AllocBlock(s).1.Ok? {
        FillSlot(s, f, n);
      } else {
        SameSlotsData(s, AllocBlock(s).0);
      }
    }
  }

  lemma SameSlotsData(fs: Fs, s: Fs)
    requires SameSlots(fs, s)
    ensures SameData(fs, s)
  {
    DataIsSlots(fs, s);
  }

  /** How file_map_block ends: past the limit never well; without `alloc` only where there is a block; and
      otherwise it fails for want of a free block or of memory, and only for that. */
  lemma MapBlockCauses(fs: Fs, f: nat, n: nat, alloc: bool)
    requires Inv(fs) && f in fs.files && (Creates(fs, f, n, alloc) ==> Clean(fs))
    ensures var (s, r) := MapBlock(fs, f, n, alloc); var was := Slot(fs, f, n);
      && (r == Err(Invalid) <==> NINDIRECT <= n)
      && (r.Ok? ==> r.value == Slot(s, f, n) != 0 && (alloc || r.value == was))
      && (r == Err(NotFound) ==> !alloc && was == 0)
      && (r == Err(NoDisk) ==>
           alloc && was == 0 && forall b: nat :: FIRST_BLOCK <= b < fs.nblocks ==> !Bit(s.bitmap, b))
      && (r == Err(NoMem) ==> s.pages == 0)
      && (!alloc ==> SameBits(fs, s) && s.files == fs.files)
  {
    WalkKeeps(fs, f, n, alloc);
    WalkCauses(fs, f, n, alloc);
    MapBlockKeeps(fs, f, n, alloc);
    var (u, r) := BlockWalk(fs, f, n, alloc);
    if r.Ok? && Slot(u, f, n) == 0 && alloc {
      AllocBlockIff(u);
      AllocBlockTakes(u);
    }
  }

  lemma WalkCauses(fs: Fs, f: nat, n: nat, alloc: bool)
    requires Inv(fs) && f in fs.files && (Creates(fs, f, n, alloc) ==> Clean(fs))
    ensures var (s, r) := BlockWalk(fs, f, n, alloc);
      && (r == Err(Invalid) <==> NINDIRECT <= n)
      && (r == Err(NotFound) ==> !alloc && Slot(fs, f, n) == 0)
      && (r == Err(NoDisk) ==>
           (alloc && Slot(fs, f, n) == 0 && forall b: nat :: FIRST_BLOCK <= b < fs.nblocks ==> !Bit(s.bitmap, b)))
      && (r == Err(NoMem) ==> s.pages == 0) && s.nblocks == fs.nblocks
  {
    WalkTakes(fs, f, n, alloc);
    if Creates(fs, f, n, alloc) {
      AllocBlockIff(fs);
      AllocBlockTakes(fs);
    }
  }

  // ----- Memory -----

  /** Every page that holds a block was one of those that could be had. */
  predicate PagesKept(fs: Fs, s: Fs) { s.pages + |s.cache| == fs.pages + |fs.cache| }

  lemma AllocPages(fs: Fs)
    requires Sized(fs)
    ensures PagesKept(fs, AllocBlock(fs).0)
  {
  }

  lemma WalkPages(fs: Fs, f: nat, n: nat, alloc: bool)
    requires Sized(fs) && f in fs.files
    ensures PagesKept(fs, BlockWalk(fs, f, n, alloc).0)
  {
    AllocPages(fs);
  }

  lemma SetPages(fs: Fs, f: nat, n: nat, v: nat)
    requires Reachable(fs, f, n)
    ensures PagesKept(fs, SetSlot(fs, f, n, v))
  {
    if NDIRECT <= n {
      assert SetSlot(fs, f, n, v).cache.Keys == fs.cache.Keys;
    }
  }

  /** file_map_block. */
  lemma MapBlockPages(fs: Fs, f: nat, n: nat, alloc: bool)
    requires Sized(fs) && f in fs.files
    ensures PagesKept(fs, MapBlock(fs, f, n, alloc).0)
  {
    WalkPages(fs, f, n, alloc);
    WalkReaches(fs, f, n, alloc);
    var (s, r) := BlockWalk(fs, f, n, alloc);
    AllocPages(s);
    if r.Ok? {
      AllocReaches(s, f, n);
      var (u, b) := AllocBlock(s);
      if b.Ok? {
        SetPages(u, f, n, b.value);
      }
    }
  }

  /** file_clear_block. */
  lemma ClearBlockPages(fs: Fs, f: nat, n: nat)
    requires Sized(fs) && f in fs.files
    ensures PagesKept(fs, ClearBlock(fs, f, n).0)
  {
    WalkPages(fs, f, n, false);
    WalkReaches(fs, f, n, false);
    var (s, r) := BlockWalk(fs, f, n, false);
    if r.Ok? && Slot(s, f, n) != 0 {
      SetPages(FreeBlock(s, Slot(s, f, n)), f, n, 0);
    }
  }

  /** free_block leaves a block's page cached, so a block reused as an index block may carry words of
      its old life.  Creating the index block leaves every slot as it was if and only if it does not. */
  lemma StaleIndexIff(fs: Fs, f: nat, n: nat)
    requires Inv(fs) && f in fs.files && Creates(fs, f, n, true) && AllocBlock(fs).1.Ok?
    ensures SameData(fs, BlockWalk(fs, f, n, true).0) <==> Clean(fs)
  {
    CreateIndex(fs, f);
    AllocNumTakes(fs);
    AllocBlockTakes(fs);
    var b := AllocBlock(fs).1.value;
    var s := AllocBlock(fs).0.(files := fs.files[f := fs.files[f].(indirect := b)]);
    ReadBlockKeeps(s, b);
    assert BlockWalk(fs, f, n, true).0 == s;
    if !Clean(fs) {
      var k :| NDIRECT <= k < NINDIRECT && fs.cache[b][k] != 0;
      assert Slot(s, f, k) != Slot(fs, f, k);
    }
  }

  /** How a block comes to be in that state: a file gives up a block of its data that is in memory, and it
      is the lowest free one then. */
  lemma StaleIndexReachable(fs: Fs, g: nat, m: nat, k: nat)
    requires Inv(fs) && g in fs.files && Slot(fs, g, m) in fs.cache && ClearBlock(fs, g, m).1.Ok?
    requires NDIRECT <= k < NINDIRECT && fs.cache[Slot(fs, g, m)][k] != 0 && Slot(fs, g, m) != 0
    requires forall b: nat :: FIRST_BLOCK <= b < Slot(fs, g, m) ==> !Bit(fs.bitmap, b)
    ensures Inv(ClearBlock(fs, g, m).0) && !Clean(ClearBlock(fs, g, m).0)
  {
    var b := Slot(fs, g, m);
    var s := ClearBlock(fs, g, m).0;
    ClearBlockKeeps(fs, g, m);
    assert BlockOf(fs, Data(g, m)) == b && InUse(fs, b);
    FirstFreeIsLowest(s, FIRST_BLOCK);
    assert FirstFree(s, FIRST_BLOCK) == Some(b);
    ClearKeepsCache(fs, g, m);
  }

  lemma ClearKeepsCache(fs: Fs, g: nat, m: nat)
    requires Inv(fs) && g in fs.files && Slot(fs, g, m) in fs.cache && ClearBlock(fs, g, m).1.Ok? && Slot(fs, g, m) != 0
    ensures var b := Slot(fs, g, m); var s := ClearBlock(fs, g, m).0; b in s.cache && s.cache[b] == fs.cache[b]
  {
    WalkKeeps(fs, g, m, false);
    assert BlockOf(fs, Data(g, m)) == Slot(fs, g, m);
    assert BlockOf(fs, Index(g)) == fs.files[g].indirect;
  }

  /** file_clear_block: the slot is empty and exactly its block, if any, is free again. */
  lemma ClearBlockKeeps(fs: Fs, f: nat, n: nat)
    requires Inv(fs) && f in fs.files
    ensures var (s, r) := ClearBlock(fs, f, n); var b := Slot(fs, f, n);
      && Inv(s) && s.files.Keys == fs.files.Keys && s.nblocks == fs.nblocks
      && (forall g :: g in fs.files ==> s.files[g].size == fs.files[g].size)
      && (r.Err? ==> SameSlots(fs, s) && SameBits(fs, s))
      && (r.Ok? ==>
           (&& (forall o :: BlockOf(s, o) == if o == Data(f, n) then 0 else BlockOf(fs, o))
            && (forall m: nat :: Bit(s.bitmap, m) <==> Bit(fs.bitmap, m) || (m == b && b != 0))))
  {
    WalkKeeps(fs, f, n, false);
    var (u, r) := BlockWalk(fs, f, n, false);
    var b := Slot(u, f, n);
    assert BlockOf(u, Data(f, n)) == b && BlockOf(fs, Data(f, n)) == b;
    if r.Ok? && b != 0 {
      assert InUse(u, b);
      FreeBlockFrees(u, b);
      var v := FreeBlock(u, b);
      assert forall c: nat :: Content(v, c) == Content(u, c);
      assert SameSlots(u, v);
      SetSlotDirect(u, v, f, n, b);
    }
  }

  lemma SetSlotDirect(u: Fs, v: Fs, f: nat, n: nat, b: nat)
    requires Inv(u) && Reachable(u, f, n) && b == Slot(u, f, n) != 0 && v == FreeBlock(u, b)
    ensures var s := SetSlot(v, f, n, 0);
      && Inv(s)
      && (forall o :: BlockOf(s, o) == if o == Data(f, n) then 0 else BlockOf(u, o))
      && s == v.(files := s.files, cache := s.cache) && s.files.Keys == u.files.Keys
      && (forall g :: g in u.files ==> s.files[g].size == u.files[g].size)
  {
    SetSlotEffect(u, f, n, 0);
    var s := SetSlot(v, f, n, 0);
    var t := SetSlot(u, f, n, 0);
    assert s == t.(bitmap := v.bitmap);
    assert forall c: nat :: Content(s, c) == Content(t, c);
    assert forall o :: BlockOf(s, o) == BlockOf(t, o);
    assert BlockOf(u, Data(f, n)) == b;
    forall o | BlockOf(s, o) != 0 ensures InUse(s, BlockOf(s, o)) {
      assert InUse(u, BlockOf(u, o));
    }
  }

  // ----- Truncation -----

  /** ROUND(size, BLOCK_SIZE) / BLOCK_SIZE. */
  function BlockCount(size: nat): nat { (size + BLOCK_SIZE - 1) / BLOCK_SIZE }

  /** The loop of file_truncate over slots from..to; None is a panic. */
  function ClearBlocks(fs: Fs, f: nat, from: nat, to: nat): (r: Option<Fs>)
    requires f in fs.files && Sized(fs)
    ensures r.Some? ==> Sized(r.value) && r.value.files.Keys == fs.files.Keys
    decreases if from < to then to - from else 0
  {
    if to <= from then Some(fs)
    else
      var (s, r) := ClearBlock(fs, f, from);
      if r.Err? then None else ClearBlocks(s, f, from + 1, to)
  }

  /** Freeing the index block and forgetting it. */
  function DropIndex(fs: Fs, f: nat): Fs
    requires f in fs.files
  {
    if fs.files[f].indirect == 0 then fs
    else FreeBlock(fs, fs.files[f].indirect).(files := fs.files[f := fs.files[f].(indirect := 0)])
  }

  function Truncate(fs: Fs, f: nat, newsize: nat): Option<Fs>
    requires f in fs.files && Sized(fs)
  {
    var upto := BlockCount(newsize);
    match ClearBlocks(fs, f, upto, BlockCount(fs.files[f].size))
    case None => None
    case Some(s) =>
      var u := if upto <= NDIRECT then DropIndex(s, f) else s;
      Some(u.(files := u.files[f := u.files[f].(size := newsize)]))
  }

  /** Slot `n` begins within a file of `size` bytes but not within one of `newsize` bytes. */
  predicate Cut(n: nat, newsize: nat, size: nat) { newsize <= BLOCK_SIZE * n < size }

  /** The new size needs no index block. */
  predicate AllDirect(newsize: nat) { newsize <= NDIRECT * BLOCK_SIZE }

  /** The counts of blocks, in bytes. */
  lemma CountIff(size: nat, n: nat)
    ensures n < BlockCount(size) <==> BLOCK_SIZE * n < size
    ensures BlockCount(size) <= n <==> size <= BLOCK_SIZE * n
  {
  }

  lemma CutIff(n: nat, newsize: nat, size: nat)
    ensures Cut(n, newsize, size) <==> BlockCount(newsize) <= n < BlockCount(size)
    ensures AllDirect(newsize) <==> BlockCount(newsize) <= NDIRECT
  {
    CountIff(newsize, n);
    CountIff(size, n);
    CountIff(newsize, NDIRECT);
  }

  /** The blocks that truncation to `newsize` bytes must release. */
  ghost function Released(fs: Fs, f: nat, newsize: nat): (r: set<nat>)
    requires f in fs.files
    ensures forall b :: b in r <==>
      b != 0 && ((exists n: nat :: Cut(n, newsize, fs.files[f].size) && Slot(fs, f, n) == b) ||
                 (AllDirect(newsize) && fs.files[f].indirect == b))
  {
    DataBlocks(fs, f, newsize) + IndexBlock(fs, f, newsize)
  }

  ghost function DataBlocks(fs: Fs, f: nat, newsize: nat): (r: set<nat>)
    requires f in fs.files
    ensures forall b :: b in r <==> b != 0 && exists n: nat :: Cut(n, newsize, fs.files[f].size) && Slot(fs, f, n) == b
  {
    set n: nat | n < NINDIRECT && Cut(n, newsize, fs.files[f].size) && Slot(fs, f, n) != 0 :: Slot(fs, f, n)
  }

  ghost function IndexBlock(fs: Fs, f: nat, newsize: nat): set<nat>
    requires f in fs.files
  {
    if AllDirect(newsize) && fs.files[f].indirect != 0 then {fs.files[f].indirect} else {}
  }

  lemma {:induction false} ClearBlocksEffect(fs: Fs, f: nat, from: nat, to: nat)
    requires Inv(fs) && f in fs.files && ClearBlocks(fs, f, from, to).Some?
    ensures var s := ClearBlocks(fs, f, from, to).value;
      && Inv(s) && s.nblocks == fs.nblocks
      && (forall g :: g in fs.files ==> s.files[g].size == fs.files[g].size)
      && (forall o :: BlockOf(s, o) ==
           if o.Data? && o.f == f && from <= o.n < to then 0 else BlockOf(fs, o))
      && (forall m: nat :: Bit(s.bitmap, m) <==>
           (Bit(fs.bitmap, m) || exists n: nat :: from <= n < to && Slot(fs, f, n) == m && m != 0))
    decreases if from < to then to - from else 0
  {
    if from < to {
      ClearBlockKeeps(fs, f, from);
      var s := ClearBlock(fs, f, from).0;
      ClearBlocksEffect(s, f, from + 1, to);
      forall n: nat | n != from ensures Slot(s, f, n) == Slot(fs, f, n) {
        assert BlockOf(s, Data(f, n)) == BlockOf(fs, Data(f, n));
      }
      assert BlockOf(fs, Data(f, from)) == Slot(fs, f, from);
    }
  }

  lemma {:induction false} ClearBlocksPages(fs: Fs, f: nat, from: nat, to: nat)
    requires Sized(fs) && f in fs.files && ClearBlocks(fs, f, from, to).Some?
    ensures PagesKept(fs, ClearBlocks(fs, f, from, to).value)
    decreases if from < to then to - from else 0
  {
    if from < to {
      ClearBlockPages(fs, f, from);
      ClearBlocksPages(ClearBlock(fs, f, from).0, f, from + 1, to);
    }
  }

  /** file_truncate gives up no page. */
  lemma TruncatePages(fs: Fs, f: nat, newsize: nat)
    requires Sized(fs) && f in fs.files && Truncate(fs, f, newsize).Some?
    ensures PagesKept(fs, Truncate(fs, f, newsize).value)
  {
    ClearBlocksPages(fs, f, BlockCount(newsize), BlockCount(fs.files[f].size));
  }

  lemma DropIndexEffect(fs: Fs, f: nat)
    requires Inv(fs) && f in fs.files
    ensures var s := DropIndex(fs, f); var i := fs.files[f].indirect;
      && Inv(s) && s.files == fs.files[f := fs.files[f].(indirect := 0)] && s.nblocks == fs.nblocks
      && (forall o :: BlockOf(s, o) ==
           if o == Index(f) || (o.Data? && o.f == f && NDIRECT <= o.n) then 0 else BlockOf(fs, o))
      && (forall m: nat :: Bit(s.bitmap, m) <==> Bit(fs.bitmap, m) || (m == i && i != 0))
  {
    var s := DropIndex(fs, f);
    var i := fs.files[f].indirect;
    assert BlockOf(fs, Index(f)) == i;
    if i != 0 {
      assert InUse(fs, i);
      FreeBlockFrees(fs, i);
    }
    assert forall c: nat :: Content(s, c) == Content(fs, c);
    forall o | BlockOf(s, o) != 0 ensures InUse(s, BlockOf(s, o)) {
      assert BlockOf(s, o) == BlockOf(fs, o);
    }
    OwnedShrinks(fs, s);
  }

  /** file_truncate by counts of blocks. */
  lemma TruncateByCount(fs: Fs, f: nat, newsize: nat)
    requires Inv(fs) && f in fs.files && Truncate(fs, f, newsize).Some?
    ensures var s := Truncate(fs, f, newsize).value;
      var upto := BlockCount(newsize); var to := BlockCount(fs.files[f].size);
      && Inv(s) && s.files.Keys == fs.files.Keys && s.files[f].size == newsize && s.nblocks == fs.nblocks
      && (forall g :: g in fs.files && g != f ==> s.files[g].size == fs.files[g].size)
      && (forall m: nat :: Bit(s.bitmap, m) <==>
           (Bit(fs.bitmap, m) || (exists n: nat :: upto <= n < to && Slot(fs, f, n) == m && m != 0)
            || (upto <= NDIRECT && m == fs.files[f].indirect && m != 0)))
      && (forall o :: BlockOf(s, o) == if Forgets(o, f, upto, to) then 0 else BlockOf(fs, o))
  {
    var upto := BlockCount(newsize);
    var to := BlockCount(fs.files[f].size);
    ClearBlocksEffect(fs, f, upto, to);
    var s := ClearBlocks(fs, f, upto, to).value;
    DropIndexEffect(s, f);
    var u := if upto <= NDIRECT then DropIndex(s, f) else s;
    assert BlockOf(s, Index(f)) == BlockOf(fs, Index(f));
    SizeIsNotASlot(u, f, newsize);
  }

  predicate Forgets(o: Owner, f: nat, upto: nat, to: nat) {
    o.f == f && if o.Index? then upto <= NDIRECT else upto <= o.n && (o.n < to || (upto <= NDIRECT && NDIRECT <= o.n))
  }

  lemma ForgetsIff(o: Owner, f: nat, newsize: nat, size: nat)
    ensures Forgets(o, f, BlockCount(newsize), BlockCount(size)) <==>
      o.f == f && if o.Index? then AllDirect(newsize)
                  else Cut(o.n, newsize, size) || (AllDirect(newsize) && NDIRECT <= o.n)
  {
    if o.Data? {
      CutIff(o.n, newsize, size);
      CountIff(newsize, o.n);
    } else {
      CutIff(0, newsize, size);
    }
  }

  /** The file has the new size.  Of every file the slots stay, except that of this one those are emptied
      that begin beyond the new size and within the old; the index block goes iff the new size fits the
      direct slots; and exactly the blocks so given up are free again. */
  ghost predicate CutTo(fs: Fs, s: Fs, f: nat, newsize: nat)
    requires f in fs.files
  {
    var size := fs.files[f].size;
    && s.files.Keys == fs.files.Keys && s.files[f].size == newsize && s.nblocks == fs.nblocks
    && (forall g, n: nat :: g != f || BLOCK_SIZE * n < newsize ==> Slot(s, g, n) == Slot(fs, g, n))
    && (forall n: nat :: newsize <= BLOCK_SIZE * n < size ==> Slot(s, f, n) == 0)
    && (newsize <= NDIRECT * BLOCK_SIZE ==> forall n: nat :: NDIRECT <= n ==> Slot(s, f, n) == 0)
    && (forall n: nat :: size <= BLOCK_SIZE * n && (newsize > NDIRECT * BLOCK_SIZE || n < NDIRECT) ==>
         Slot(s, f, n) == Slot(fs, f, n))
    && s.files[f].indirect == (if newsize <= NDIRECT * BLOCK_SIZE then 0 else fs.files[f].indirect)
    && (forall g :: g in fs.files && g != f ==>
         s.files[g].size == fs.files[g].size && s.files[g].indirect == fs.files[g].indirect)
    && (forall m: nat :: Bit(s.bitmap, m) <==> Bit(fs.bitmap, m) || m in Released(fs, f, newsize))
  }

  /** file_truncate, when it does not panic. */
  lemma TruncateIsExact(fs: Fs, f: nat, newsize: nat)
    requires Inv(fs) && f in fs.files && Truncate(fs, f, newsize).Some?
    ensures Inv(Truncate(fs, f, newsize).value) && CutTo(fs, Truncate(fs, f, newsize).value, f, newsize)
  {
    var s := Truncate(fs, f, newsize).value;
    var size := fs.files[f].size;
    TruncateByCount(fs, f, newsize);
    forall o ensures BlockOf(s, o) ==
      if o.f == f && (if o.Index? then AllDirect(newsize)
                      else Cut(o.n, newsize, size) || (AllDirect(newsize) && NDIRECT <= o.n))
      then 0 else BlockOf(fs, o)
    {
      ForgetsIff(o, f, newsize, size);
    }
    forall g, n: nat ensures Slot(s, g, n) ==
      if g == f && (Cut(n, newsize, size) || (AllDirect(newsize) && NDIRECT <= n)) then 0 else Slot(fs, g, n)
    {
      assert Slot(s, g, n) == BlockOf(s, Data(g, n)) && Slot(fs, g, n) == BlockOf(fs, Data(g, n));
    }
    forall g | g in fs.files
      ensures s.files[g].indirect == if g == f && AllDirect(newsize) then 0 else fs.files[g].indirect
    {
      assert BlockOf(s, Index(g)) == s.files[g].indirect && BlockOf(fs, Index(g)) == fs.files[g].indirect;
    }
    ReleasedByCount(fs, f, newsize);
  }

  lemma ReleasedByCount(fs: Fs, f: nat, newsize: nat)
    requires f in fs.files
    ensures var upto := BlockCount(newsize); var to := BlockCount(fs.files[f].size);
      forall m: nat :: m in Released(fs, f, newsize) <==>
        ((exists n: nat :: upto <= n < to && Slot(fs, f, n) == m && m != 0)
         || (upto <= NDIRECT && m == fs.files[f].indirect && m != 0))
  {
    CutIff(0, newsize, fs.files[f].size);
    forall n: nat ensures
      Cut(n, newsize, fs.files[f].size) <==> BlockCount(newsize) <= n < BlockCount(fs.files[f].size)
    {
      CutIff(n, newsize, fs.files[f].size);
    }
  }

  lemma SizeIsNotASlot(u: Fs, f: nat, size: nat)
    requires Inv(u) && f in u.files
    ensures var v := u.(files := u.files[f := u.files[f].(size := size)]);
      Inv(v) && SameSlots(u, v)
  {
    var v := u.(files := u.files[f := u.files[f].(size := size)]);
    assert forall c: nat :: Content(v, c) == Content(u, c);
    forall o | BlockOf(v, o) != 0 ensures InUse(v, BlockOf(v, o)) {
      assert InUse(u, BlockOf(u, o));
    }
    OwnedShrinks(u, v);
  }

  ghost function FreeBlocks(fs: Fs): set<nat> {
    set b: nat | b < fs.nblocks && Bit(fs.bitmap, b)
  }

  /** The slots that truncation empties. */
  ghost function CutSlots(fs: Fs, f: nat, newsize: nat): (r: set<nat>)
    requires f in fs.files
    ensures forall n :: n in r <==> newsize <= BLOCK_SIZE * n < fs.files[f].size && Slot(fs, f, n) != 0
  {
    set n: nat | n < NINDIRECT && Cut(n, newsize, fs.files[f].size) && Slot(fs, f, n) != 0
  }

  /** The blocks of the slots in a set. */
  ghost function BlocksIn(fs: Fs, f: nat, ns: set<nat>): set<nat> { set n | n in ns :: Slot(fs, f, n) }

  lemma {:induction false} BlocksInCount(fs: Fs, f: nat, ns: set<nat>)
    requires Owned(fs) && forall n :: n in ns ==> Slot(fs, f, n) != 0
    ensures |BlocksIn(fs, f, ns)| == |ns|
  {
    if ns != {} {
      var n :| n in ns;
      BlocksInCount(fs, f, ns - {n});
      forall m | m in ns && m != n ensures Slot(fs, f, m) != Slot(fs, f, n) {
        assert BlockOf(fs, Data(f, m)) == Slot(fs, f, m) && BlockOf(fs, Data(f, n)) == Slot(fs, f, n);
      }
      assert BlocksIn(fs, f, ns) == BlocksIn(fs, f, ns - {n}) + {Slot(fs, f, n)};
    }
  }

  lemma ReleasedInUse(fs: Fs, f: nat, newsize: nat)
    requires Owned(fs) && f in fs.files
    ensures DataBlocks(fs, f, newsize) == BlocksIn(fs, f, CutSlots(fs, f, newsize))
    ensures DataBlocks(fs, f, newsize) !! IndexBlock(fs, f, newsize)
    ensures forall b :: b in Released(fs, f, newsize) ==> InUse(fs, b)
  {
    var i := fs.files[f].indirect;
    assert BlockOf(fs, Index(f)) == i;
    forall n: nat ensures Slot(fs, f, n) != 0 ==> InUse(fs, Slot(fs, f, n)) && Slot(fs, f, n) != i {
      assert BlockOf(fs, Data(f, n)) == Slot(fs, f, n);
    }
  }

  /** The number of free blocks grows by exactly the number of blocks released: one for each slot
      that held one, and one for the index block. */
  lemma TruncateCounts(fs: Fs, f: nat, newsize: nat)
    requires Inv(fs) && f in fs.files && Truncate(fs, f, newsize).Some?
    ensures |FreeBlocks(Truncate(fs, f, newsize).value)| == |FreeBlocks(fs)| + |CutSlots(fs, f, newsize)|
        + (if newsize <= NDIRECT * BLOCK_SIZE && fs.files[f].indirect != 0 then 1 else 0)
  {
    var s := Truncate(fs, f, newsize).value;
    TruncateIsExact(fs, f, newsize);
    BlocksInCount(fs, f, CutSlots(fs, f, newsize));
    ReleasedInUse(fs, f, newsize);
    AddDisjoint(fs, s, Released(fs, f, newsize));
  }

  lemma AddDisjoint(fs: Fs, s: Fs, r: set<nat>)
    requires s.nblocks == fs.nblocks && forall b :: b in r ==> InUse(fs, b)
    requires forall m: nat :: Bit(s.bitmap, m) <==> Bit(fs.bitmap, m) || m in r
    ensures |FreeBlocks(s)| == |FreeBlocks(fs)| + |r|
  {
    assert FreeBlocks(s) == FreeBlocks(fs) + r;
  }

  /** The index block of the file is there and can be brought into memory. */
  predicate IndexReadable(fs: Fs, f: nat)
    requires f in fs.files
  {
    fs.files[f].indirect != 0 && (fs.files[f].indirect in fs.cache || 0 < fs.pages)
  }

  /** The slots from..to can all be reached without a panic. */
  predicate Clearable(fs: Fs, f: nat, from: nat, to: nat)
    requires f in fs.files
  {
    to <= from || to <= NDIRECT || (to <= NINDIRECT && IndexReadable(fs, f))
  }

  lemma ClearBlockIff(fs: Fs, f: nat, n: nat)
    requires Inv(fs) && f in fs.files
    ensures var (s, r) := ClearBlock(fs, f, n);
      && (r.Ok? <==> Clearable(fs, f, n, n + 1))
      && (r.Ok? ==> f in s.files && (IndexReadable(s, f) <==> IndexReadable(fs, f)))
  {
    ClearBlockKeeps(fs, f, n);
    var (s, r) := ClearBlock(fs, f, n);
    assert r.Ok? ==> BlockOf(s, Index(f)) == BlockOf(fs, Index(f));
  }

  lemma {:induction false} ClearBlocksIff(fs: Fs, f: nat, from: nat, to: nat)
    requires Inv(fs) && f in fs.files
    ensures ClearBlocks(fs, f, from, to).Some? <==> Clearable(fs, f, from, to)
    decreases if from < to then to - from else 0
  {
    if from < to {
      ClearBlockKeeps(fs, f, from);
      ClearBlockIff(fs, f, from);
      var (s, r) := ClearBlock(fs, f, from);
      if r.Ok? {
        ClearBlocksIff(s, f, from + 1, to);
      }
    }
  }

  /** file_truncate panics exactly when some slot it must clear lies past the limit, or in an index
      block that is missing or cannot be read. */
  lemma TruncateIff(fs: Fs, f: nat, newsize: nat)
    requires Inv(fs) && f in fs.files
    ensures Truncate(fs, f, newsize).Some? <==>
      forall n: nat :: Cut(n, newsize, fs.files[f].size) ==> n < NDIRECT || (n < NINDIRECT && IndexReadable(fs, f))
  {
    var upto := BlockCount(newsize);
    var to := BlockCount(fs.files[f].size);
    ClearBlocksIff(fs, f, upto, to);
    forall n: nat ensures Cut(n, newsize, fs.files[f].size) <==> upto <= n < to {
      CutIff(n, newsize, fs.files[f].size);
    }
    if upto < to {
      assert Cut(to - 1, newsize, fs.files[f].size);
    }
  }
}
