/** fs/fs.c's block layer as it runs: bitmap words, cached blocks and file slots changed in place.
    Each method leaves the state that its function in Blocks computes. */
module FileServer {
  import opened Basics
  import opened Bitmaps
  import opened Blocks
  import opened DiskLayout

  class Server {
    const nblocks: nat
    const bitmap: array<Word32>
    const ondisk: array<Word32>
    var files: map<nat, File>
    var cache: map<nat, Words>
    var disk: map<nat, Words>
    var pages: nat

    ghost function State(): Fs
      reads this, bitmap, ondisk
    {
      Fs(nblocks, bitmap[..], ondisk[..], files, cache, disk, pages)
    }

    ghost predicate Mounted()
      reads this, bitmap, ondisk
    {
      bitmap != ondisk && Sized(State())
    }

    method BlockIsFree(b: nat) returns (free: bool)
      requires Mounted()
      ensures free <==> IsFree(State(), b)
    {
      free := b < nblocks && bitmap[b / 32][b % 32];
    }

    method FreeBlock(b: nat)
      requires Mounted()
      modifies bitmap
      ensures Mounted() && State() == Blocks.FreeBlock(old(State()), b)
    {
      if b == 0 || nblocks <= b {
        return;
      }
      bitmap[b / 32] := bitmap[b / 32][b % 32 := true];
      assert bitmap[..] == Put(old(bitmap[..]), b, true);
    }

    /** write_block of the bitmap block covering block `b`. */
    method WriteBitmapBlock(b: nat)
      requires Mounted()
      modifies ondisk
      ensures Mounted() && ondisk[..] == SyncBitmap(old(bitmap[..]), old(ondisk[..]), b)
    {
      var i := 0;
      while i < bitmap.Length
        invariant i <= bitmap.Length
        invariant forall k :: 0 <= k < i ==>
          ondisk[k] == SyncBitmap(old(bitmap[..]), old(ondisk[..]), b)[k]
        invariant forall k :: i <= k < bitmap.Length ==> ondisk[k] == old(ondisk[k])
      {
        if i / NINDIRECT == b / BLOCK_SIZE_BIT {
          ondisk[i] := bitmap[i];
        }
        i := i + 1;
      }
    }

    /** alloc_block_num: the search from block 3 up. */
    method AllocBlockNum() returns (r: Option<nat>)
      requires Mounted()
      modifies bitmap, ondisk
      ensures Mounted() && (State(), r) == AllocNum(old(State()))
    {
      var b := FIRST_BLOCK;
      while b < nblocks
        invariant FirstFree(State(), b) == FirstFree(State(), FIRST_BLOCK)
        decreases nblocks - b
      {
        if bitmap[b / 32][b % 32] {
          bitmap[b / 32] := bitmap[b / 32][b % 32 := false];
          assert bitmap[..] == Put(old(bitmap[..]), b, false);
          WriteBitmapBlock(b);
          return Some(b);
        }
        b := b + 1;
      }
      r := None;
    }

    /** map_block. */
    method MapPage(b: nat) returns (ok: bool)
      modifies this`cache, this`pages
      ensures ok <==> b in old(cache) || 0 < old(pages)
      ensures cache == if b in old(cache) || !ok then old(cache) else old(cache)[b := ZeroWords()]
      ensures pages == if b in old(cache) || !ok then old(pages) else old(pages) - 1
    {
      if b in cache {
        return true;
      }
      if pages == 0 {
        return false;
      }
      cache := cache[b := ZeroWords()];
      pages := pages - 1;
      ok := true;
    }

    method AllocBlock() returns (r: Result<nat, Error>)
      requires Mounted()
      modifies this`cache, this`pages, bitmap, ondisk
      ensures Mounted() && (State(), r) == Blocks.AllocBlock(old(State()))
    {
      var b := AllocBlockNum();
      if b == None {
        return Err(NoDisk);
      }
      var ok := MapPage(b.value);
      if !ok {
        FreeBlock(b.value);
        return Err(NoMem);
      }
      r := Ok(b.value);
    }

    method ReadBlock(b: nat) returns (r: Result<(), Error>)
      requires Mounted()
      modifies this`cache, this`pages
      ensures Mounted() && (State(), r) == Blocks.ReadBlock(old(State()), b)
    {
      if b !in cache {
        if pages == 0 {
          return Err(NoMem);
        }
        cache := cache[b := if b in disk then disk[b] else ZeroWords()];
        pages := pages - 1;
      }
      r := Ok(());
    }

    method FileBlockWalk(f: nat, n: nat, alloc: bool) returns (r: Result<(), Error>)
      requires Mounted() && f in files
      modifies this`cache, this`pages, this`files, bitmap, ondisk
      ensures Mounted() && (State(), r) == BlockWalk(old(State()), f, n, alloc)
    {
      if n < NDIRECT {
        return Ok(());
      }
      if NINDIRECT <= n {
        return Err(Invalid);
      }
      if files[f].indirect == 0 {
        if !alloc {
          return Err(NotFound);
        }
        var b := AllocBlock();
        if b.Err? {
          return Err(b.error);
        }
        files := files[f := files[f].(indirect := b.value)];
        r := ReadBlock(b.value);
        return;
      }
      r := ReadBlock(files[f].indirect);
    }

    /** The value at the pointer that file_block_walk returned. */
    method LoadSlot(f: nat, n: nat) returns (v: nat)
      requires Reachable(State(), f, n)
      ensures v == Slot(State(), f, n)
    {
      v := if n < NDIRECT then files[f].direct[n] else cache[files[f].indirect][n];
    }

    /** A store through it. */
    method StoreSlot(f: nat, n: nat, v: nat)
      requires Reachable(State(), f, n)
      modifies this`cache, this`files
      ensures State() == SetSlot(old(State()), f, n, v)
    {
      if n < NDIRECT {
        files := files[f := files[f].(direct := files[f].direct[n := v])];
      } else {
        var i := files[f].indirect;
        cache := cache[i := cache[i][n := v]];
      }
    }

    method FileMapBlock(f: nat, n: nat, alloc: bool) returns (r: Result<nat, Error>)
      requires Mounted() && f in files
      modifies this`cache, this`pages, this`files, bitmap, ondisk
      ensures Mounted() && (State(), r) == MapBlock(old(State()), f, n, alloc)
    {
      WalkReaches(State(), f, n, alloc);
      var w := FileBlockWalk(f, n, alloc);
      if w.Err? {
        return Err(w.error);
      }
      var v := LoadSlot(f, n);
      if v == 0 {
        if !alloc {
          return Err(NotFound);
        }
        AllocReaches(State(), f, n);
        r := AllocBlock();
        if r.Err? {
          return;
        }
        StoreSlot(f, n, r.value);
        return;
      }
      r := Ok(v);
    }

    method FileClearBlock(f: nat, n: nat) returns (r: Result<(), Error>)
      requires Mounted() && f in files
      modifies this`cache, this`pages, this`files, bitmap, ondisk
      ensures Mounted() && (State(), r) == ClearBlock(old(State()), f, n)
    {
      WalkReaches(State(), f, n, false);
      r := FileBlockWalk(f, n, false);
      if r.Err? {
        return;
      }
      var v := LoadSlot(f, n);
      if v != 0 {
        FreeBlock(v);
        StoreSlot(f, n, 0);
      }
    }

    /** The loop of file_truncate; false is a panic. */
    method ClearRange(f: nat, from: nat, to: nat) returns (ok: bool)
      requires Mounted() && f in files
      modifies this`cache, this`pages, this`files, bitmap, ondisk
      ensures ok <==> ClearBlocks(old(State()), f, from, to).Some?
      ensures ok ==> Mounted() && State() == ClearBlocks(old(State()), f, from, to).value
    {
      ghost var start := State();
      var bno := from;
      while bno < to
        invariant Mounted() && f in files
        invariant ClearBlocks(State(), f, bno, to) == ClearBlocks(start, f, from, to)
        decreases if bno < to then to - bno else 0
      {
        var r := FileClearBlock(f, bno);
        if r.Err? {
          return false;
        }
        bno := bno + 1;
      }
      ok := true;
    }

    /** file_truncate; false is a panic. */
    method FileTruncate(f: nat, newsize: nat) returns (ok: bool)
      requires Mounted() && f in files
      modifies this`cache, this`pages, this`files, bitmap, ondisk
      ensures ok <==> Truncate(old(State()), f, newsize).Some?
      ensures ok ==> Mounted() && State() == Truncate(old(State()), f, newsize).value
      ensures ok && Inv(old(State())) ==> Inv(State()) && CutTo(old(State()), State(), f, newsize)
    {
      ghost var fs := State();
      var upto := BlockCount(newsize);
      ok := ClearRange(f, upto, BlockCount(files[f].size));
      if !ok {
        return;
      }
      if upto <= NDIRECT && files[f].indirect != 0 {
        FreeBlock(files[f].indirect);
        files := files[f := files[f].(indirect := 0)];
      }
      files := files[f := files[f].(size := newsize)];
      if Inv(fs) {
        TruncateIsExact(fs, f, newsize);
      }
    }
  }
}
