/** The image builder (tools/fsformat.c): it hands out blocks in order, links them to files, and
    writes the bitmap last.  The image it leaves satisfies the file server's invariant. */
module FsFormat {
  import opened Bitmaps
  import opened Blocks
  import opened DiskLayout

  const NBLOCK := 1024
  function Empty(): File { File(0, seq(NDIRECT, _ => 0), 0) }

  /** `next` is nextbno; `files` the named File structures, `dirs` those of directories; `tables` the
      index blocks.  Every other block of the image reads as zeros. */
  datatype Img = Img(next: nat, files: map<nat, File>, dirs: set<nat>, tables: map<nat, Words>)

  /** The image as the file server will see it, but for the bitmap. */
  function View(img: Img): Fs {
    Fs(NBLOCK, [], [], img.files, map[], img.tables, 0)
  }

  function Link(img: Img, f: nat, n: nat): nat { Slot(View(img), f, n) }

  /** Blocks are linked once and only after they were handed out; a directory has all its blocks. */
  ghost predicate Linked(img: Img) {
    && FIRST_BLOCK <= img.next
    && (forall o :: BlockOf(View(img), o) != 0 ==> FIRST_BLOCK <= BlockOf(View(img), o) < img.next)
    && (forall o, q :: BlockOf(View(img), o) != 0 && BlockOf(View(img), o) == BlockOf(View(img), q) ==> o == q)
    && (forall b :: b in img.tables ==> b < img.next)
    && (forall f :: f in img.files ==> f < FILE2BLK * img.next)
    && ROOT in img.dirs && img.dirs <= img.files.Keys
    && (forall d, i: nat :: d in img.dirs && i < img.files[d].size / BLOCK_SIZE ==> Link(img, d, i) != 0)
  }

  function NextBlock(img: Img): (Img, nat) { (img.(next := img.next + 1), img.next) }

  function MakeIndex(img: Img, f: nat): Img
    requires f in img.files
  {
    if img.files[f].indirect != 0 then img
    else
      var (u, i) := NextBlock(img);
      u.(files := u.files[f := u.files[f].(indirect := i)])
  }

  function SaveBlockLink(img: Img, f: nat, n: nat, b: nat): (r: Img)
    requires f in img.files && n < NINDIRECT
    ensures r.files.Keys == img.files.Keys && r.dirs == img.dirs
  {
    if n < NDIRECT then img.(files := img.files[f := img.files[f].(direct := img.files[f].direct[n := b])])
    else
      var u := MakeIndex(img, f);
      var i := u.files[f].indirect;
      u.(tables := u.tables[i := Content(View(u), i)[n := b]])
  }

  /** One round of the loops that fill a file or grow a directory: next_block, then link it. */
  function Append(img: Img, f: nat, n: nat): (r: Img)
    requires f in img.files && n < NINDIRECT
    ensures r.files.Keys == img.files.Keys && r.dirs == img.dirs
  {
    var (u, b) := NextBlock(img);
    SaveBlockLink(u, f, n, b)
  }

  function MakeLinkBlock(img: Img, d: nat, n: nat): (r: Img)
    requires d in img.files && n < NINDIRECT
    ensures r.files.Keys == img.files.Keys && r.dirs == img.dirs
  {
    var u := Append(img, d, n);
    u.(files := u.files[d := u.files[d].(size := u.files[d].size + BLOCK_SIZE)])
  }

  /** No unused File structure in the first `n` blocks of the directory. */
  ghost predicate Full(img: Img, d: nat, n: nat) {
    forall i: nat, j: nat :: i < n && j < FILE2BLK ==> Place(Link(img, d, i), j) in img.files
  }

  /** The block loop of write_file: blocks `n` to `to` of the file. */
  function AppendAll(img: Img, f: nat, n: nat, to: nat): (r: Img)
    requires f in img.files && to <= NINDIRECT
    ensures r.files.Keys == img.files.Keys && r.dirs == img.dirs
    decreases if n < to then to - n else 0
  {
    if to <= n then img else AppendAll(Append(img, f, n), f, n + 1, to)
  }

  // ----- Proofs -----

  lemma InitialLinked()
    ensures Linked(Img(FIRST_BLOCK, map[ROOT := Empty()], {ROOT}, map[]))
  {
  }

  /** The owner relation after a store names `b` at `x` and is otherwise as before. */
  lemma LinkedAfter(img: Img, u: Img, x: Owner, b: nat)
    requires Linked(img) && img.next <= u.next && FIRST_BLOCK <= b < u.next
    requires forall o :: BlockOf(View(u), o) == if o == x then b else BlockOf(View(img), o)
    requires forall o :: BlockOf(View(img), o) != b
    requires forall c :: c in u.tables ==> c < u.next
    requires u.dirs == img.dirs && u.files.Keys == img.files.Keys
    requires forall d :: d in img.dirs ==> u.files[d].size == img.files[d].size
    ensures Linked(u)
  {
    forall d, i: nat | d in u.dirs && i < u.files[d].size / BLOCK_SIZE ensures Link(u, d, i) != 0 {
      assert Link(img, d, i) != 0;
      assert BlockOf(View(u), Data(d, i)) == Link(u, d, i);
      assert BlockOf(View(img), Data(d, i)) == Link(img, d, i);
    }
  }

  lemma MakeIndexKeeps(img: Img, f: nat)
    requires Linked(img) && f in img.files && img.files[f].indirect == 0
    ensures var u := MakeIndex(img, f);
      && Linked(u) && u.next == img.next + 1 && u.files[f].indirect == img.next
      && (forall o :: BlockOf(View(u), o) == if o == Index(f) then img.next else BlockOf(View(img), o))
  {
    var u := MakeIndex(img, f);
    assert forall c: nat :: Content(View(u), c) == Content(View(img), c);
    assert img.next !in img.tables;
    forall o ensures BlockOf(View(u), o) == if o == Index(f) then img.next else BlockOf(View(img), o) {
    }
    LinkedAfter(img, u, Index(f), img.next);
  }

  /** save_block_link of a block that nothing names yet. */
  lemma SaveBlockLinkKeeps(img: Img, f: nat, n: nat, b: nat)
    requires Linked(img) && f in img.files && n < NINDIRECT
    requires FIRST_BLOCK <= b < img.next && forall o :: BlockOf(View(img), o) != b
    ensures var u := SaveBlockLink(img, f, n, b);
      && Linked(u) && img.next <= u.next <= img.next + 1
      && (forall g: nat, m: nat :: Link(u, g, m) == if g == f && m == n then b else Link(img, g, m))
      && (forall g :: g in img.files ==> u.files[g].size == img.files[g].size)
  {
    var u := SaveBlockLink(img, f, n, b);
    if n < NDIRECT {
      assert forall c: nat :: Content(View(u), c) == Content(View(img), c);
      assert forall o :: BlockOf(View(u), o) == if o == Data(f, n) then b else BlockOf(View(img), o);
      LinkedAfter(img, u, Data(f, n), b);
      LinksAre(img, u, f, n, b);
    } else {
      var w := MakeIndex(img, f);
      if img.files[f].indirect == 0 {
        MakeIndexKeeps(img, f);
      }
      IndexStore(w, f, n, b);
      LinkedAfter(w, u, Data(f, n), b);
      LinksAre(img, u, f, n, b);
    }
  }

  lemma IndexStore(w: Img, f: nat, n: nat, b: nat)
    requires Linked(w) && f in w.files && NDIRECT <= n < NINDIRECT && w.files[f].indirect != 0
    ensures var i := w.files[f].indirect; var u := w.(tables := w.tables[i := Content(View(w), i)[n := b]]);
      (forall o :: BlockOf(View(u), o) == if o == Data(f, n) then b else BlockOf(View(w), o)) && i < w.next
  {
    var i := w.files[f].indirect;
    var u := w.(tables := w.tables[i := Content(View(w), i)[n := b]]);
    assert BlockOf(View(w), Index(f)) == i;
    assert forall c: nat :: c != i ==> Content(View(u), c) == Content(View(w), c);
    forall g | g in w.files && g != f && w.files[g].indirect != 0 ensures w.files[g].indirect != i {
      assert BlockOf(View(w), Index(g)) == w.files[g].indirect;
    }
  }

  lemma LinksAre(img: Img, u: Img, f: nat, n: nat, b: nat)
    requires forall o: Owner :: o.Data? ==> BlockOf(View(u), o) == if o == Data(f, n) then b else BlockOf(View(img), o)
    ensures forall g: nat, m: nat :: Link(u, g, m) == if g == f && m == n then b else Link(img, g, m)
  {
    forall g: nat, m: nat ensures Link(u, g, m) == if g == f && m == n then b else Link(img, g, m) {
      assert BlockOf(View(u), Data(g, m)) == Link(u, g, m) && BlockOf(View(img), Data(g, m)) == Link(img, g, m);
    }
  }

  /** Appending links the block just handed out, and takes at most one more for the index. */
  lemma AppendKeeps(img: Img, f: nat, n: nat)
    requires Linked(img) && f in img.files && n < NINDIRECT
    ensures var u := Append(img, f, n);
      && Linked(u) && img.next < u.next <= img.next + 2
      && (forall g: nat, m: nat :: Link(u, g, m) == if g == f && m == n then img.next else Link(img, g, m))
      && (forall g :: g in img.files ==> u.files[g].size == img.files[g].size)
  {
    var u := NextBlock(img).0;
    assert forall o :: BlockOf(View(u), o) == BlockOf(View(img), o);
    assert Linked(u) by {
      forall d, i: nat | d in u.dirs && i < u.files[d].size / BLOCK_SIZE ensures Link(u, d, i) != 0 {
        assert Link(img, d, i) != 0;
      }
    }
    SaveBlockLinkKeeps(u, f, n, img.next);
    assert forall g: nat, m: nat :: Link(u, g, m) == Link(img, g, m);
  }

  /** A directory whose next block is linked may grow by it. */
  lemma Grown(w: Img, d: nat, n: nat)
    requires Linked(w) && d in w.dirs && w.files[d].size / BLOCK_SIZE == n && Link(w, d, n) != 0
    ensures var u := w.(files := w.files[d := w.files[d].(size := w.files[d].size + BLOCK_SIZE)]);
      Linked(u) && forall g: nat, m: nat :: Link(u, g, m) == Link(w, g, m)
  {
    var u := w.(files := w.files[d := w.files[d].(size := w.files[d].size + BLOCK_SIZE)]);
    assert forall c: nat :: Content(View(u), c) == Content(View(w), c);
    assert forall g: nat, m: nat :: Link(u, g, m) == Link(w, g, m);
    assert forall o :: BlockOf(View(u), o) == BlockOf(View(w), o);
    forall e, i: nat | e in u.dirs && i < u.files[e].size / BLOCK_SIZE ensures Link(u, e, i) != 0 {
      if e != d || i < n {
        assert Link(w, e, i) != 0;
      }
    }
  }

  /** make_link_block: the directory grows by one block, which is its own. */
  lemma MakeLinkBlockKeeps(img: Img, d: nat)
    requires Linked(img) && d in img.dirs && img.files[d].size / BLOCK_SIZE < NINDIRECT
    ensures var n := img.files[d].size / BLOCK_SIZE; var u := MakeLinkBlock(img, d, n);
      && Linked(u) && u.files[d].size / BLOCK_SIZE == n + 1 && Link(u, d, n) == img.next
      && (forall g: nat, m: nat :: g != d || m != n ==> Link(u, g, m) == Link(img, g, m))
  {
    var n := img.files[d].size / BLOCK_SIZE;
    AppendKeeps(img, d, n);
    var w := Append(img, d, n);
    var u := MakeLinkBlock(img, d, n);
    Grown(w, d, n);
  }

  /** write_file's loop: block i of the file is linked in slot i, every other file keeps its links. */
  lemma {:induction false} AppendAllKeeps(img: Img, f: nat, n: nat, to: nat)
    requires Linked(img) && f in img.files && to <= NINDIRECT
    ensures var u := AppendAll(img, f, n, to);
      && Linked(u) && img.next <= u.next
      && (forall i: nat :: n <= i < to ==> img.next <= Link(u, f, i))
      && (forall g: nat, m: nat :: g != f || m < n || to <= m ==> Link(u, g, m) == Link(img, g, m))
      && (forall g :: g in img.files ==> u.files[g].size == img.files[g].size)
    decreases if n < to then to - n else 0
  {
    if n < to {
      AppendKeeps(img, f, n);
      AppendAllKeeps(Append(img, f, n), f, n + 1, to);
    }
  }

  /** An unused File structure of a linked block gets a name; a new directory has no block yet. */
  function Named(img: Img, f: nat, size: nat, dir: bool): Img
    requires f !in img.files
  {
    img.(files := img.files[f := Empty().(size := size)], dirs := if dir then img.dirs + {f} else img.dirs)
  }

  lemma NamedKeeps(img: Img, f: nat, size: nat, dir: bool)
    requires Linked(img) && f !in img.files && f < FILE2BLK * img.next && (dir ==> size == 0)
    ensures Linked(Named(img, f, size, dir))
    ensures forall g: nat, m: nat :: Link(Named(img, f, size, dir), g, m) == Link(img, g, m)
  {
    var u := Named(img, f, size, dir);
    assert forall c: nat :: Content(View(u), c) == Content(View(img), c);
    assert forall g: nat, m: nat :: Link(u, g, m) == Link(img, g, m);
    assert forall o :: BlockOf(View(u), o) == BlockOf(View(img), o);
    forall d, i: nat | d in u.dirs && i < u.files[d].size / BLOCK_SIZE ensures Link(u, d, i) != 0 {
      assert Link(img, d, i) != 0;
    }
  }

  // ----- The bitmap -----

  /** The bitmap that flush_bitmap leaves: free are the blocks of the disk not handed out. */
  ghost predicate Flushed(words: seq<Word32>, next: nat) {
    |words| == 1024 && forall b: nat :: Bit(words, b) <==> next <= b < NBLOCK
  }

  /** If the image fits the disk, the file server mounts it with every ownership property, and with
      the free blocks exactly those not handed out. */
  lemma ImageMounts(img: Img, words: seq<Word32>, pages: nat)
    requires Linked(img) && img.next <= NBLOCK && Flushed(words, img.next)
    ensures var fs := Fs(NBLOCK, words, words, img.files, map[], img.tables, pages);
      Inv(fs) && forall b: nat :: IsFree(fs, b) <==> img.next <= b < NBLOCK
  {
    var fs := Fs(NBLOCK, words, words, img.files, map[], img.tables, pages);
    assert forall c: nat :: Content(fs, c) == Content(View(img), c);
    assert forall o :: BlockOf(fs, o) == BlockOf(View(img), o);
  }

  // ----- As it runs -----

  class Disk {
    var next: nat
    var files: map<nat, File>
    var dirs: set<nat>
    var tables: map<nat, Words>
    const bitmap: array<Word32>

    ghost function Image(): Img
      reads this
    {
      Img(next, files, dirs, tables)
    }

    /** init_disk: 0xff up to byte NBLOCK / 8 of the bitmap block, 0x00 beyond. */
    constructor ()
      ensures Linked(Image()) && Flushed(bitmap[..], 0) && next == FIRST_BLOCK && fresh(bitmap)
    {
      var ones: Word32 := seq(32, _ => true);
      var zeros: Word32 := seq(32, _ => false);
      bitmap := new Word32[1024](k => if k < NBLOCK / 32 then ones else zeros);
      next, files, dirs, tables := FIRST_BLOCK, map[ROOT := Empty()], {ROOT}, map[];
      InitialLinked();
    }

    method TakeBlock() returns (b: nat)
      modifies this`next
      ensures (Image(), b) == NextBlock(old(Image()))
    {
      b := next;
      next := next + 1;
    }

    method SaveLink(f: nat, n: nat, b: nat)
      requires f in files && n < NINDIRECT
      modifies this`next, this`files, this`tables
      ensures Image() == SaveBlockLink(old(Image()), f, n, b)
    {
      if n < NDIRECT {
        files := files[f := files[f].(direct := files[f].direct[n := b])];
      } else {
        if files[f].indirect == 0 {
          var i := TakeBlock();
          files := files[f := files[f].(indirect := i)];
        }
        var i := files[f].indirect;
        tables := tables[i := (if i in tables then tables[i] else ZeroWords())[n := b]];
      }
    }

    /** create_file: an unused File structure in the directory's blocks, or if all are used the first
        of a new block of the directory. */
    method CreateFile(d: nat) returns (f: nat)
      requires Linked(Image()) && d in dirs && files[d].size / BLOCK_SIZE < NINDIRECT
      modifies this`next, this`files, this`tables
      ensures Linked(Image()) && f !in files && f < FILE2BLK * next
      ensures exists i: nat :: i < files[d].size / BLOCK_SIZE && f / FILE2BLK == Link(Image(), d, i)
      ensures var n := old(files[d].size) / BLOCK_SIZE;
        Image() == if Full(old(Image()), d, n) then MakeLinkBlock(old(Image()), d, n) else old(Image())
    {
      var nblk := files[d].size / BLOCK_SIZE;
      var i := 0;
      while i < nblk
        invariant i <= nblk && Image() == old(Image()) && Full(Image(), d, i)
      {
        assert Link(Image(), d, i) != 0;
        var bno := if i < NDIRECT then files[d].direct[i]
                   else if files[d].indirect in tables then tables[files[d].indirect][i] else 0;
        assert bno == Link(Image(), d, i) == BlockOf(View(Image()), Data(d, i));
        var j := 0;
        while j < FILE2BLK
          invariant j <= FILE2BLK && Image() == old(Image())
          invariant forall k: nat :: k < j ==> Place(bno, k) in files
        {
          if Place(bno, j) !in files {
            f := Place(bno, j);
            assert f / FILE2BLK == bno && f % FILE2BLK == j;
            return;
          }
          j := j + 1;
        }
        i := i + 1;
      }
      MakeLinkBlockKeeps(Image(), d);
      var b := TakeBlock();
      SaveLink(d, nblk, b);
      files := files[d := files[d].(size := files[d].size + BLOCK_SIZE)];
      assert Link(Image(), d, nblk) == b;
      f := Place(b, 0);
    }

    /** write_file for a host file of `size` bytes. */
    method WriteFile(d: nat, size: nat) returns (f: nat)
      requires Linked(Image()) && d in dirs && files[d].size / BLOCK_SIZE < NINDIRECT
      requires size <= NINDIRECT * BLOCK_SIZE
      modifies this`next, this`files, this`dirs, this`tables
      ensures Linked(Image()) && dirs == old(dirs) && f !in old(files) && f in files
      ensures files[f].size == size && forall i: nat :: BLOCK_SIZE * i < size <==> Link(Image(), f, i) != 0
      ensures exists i: nat :: i < files[d].size / BLOCK_SIZE && f / FILE2BLK == Link(Image(), d, i)
      ensures forall g: nat, m: nat :: g in old(files) && (g != d || m < old(files[d].size) / BLOCK_SIZE) ==>
        Link(Image(), g, m) == Link(old(Image()), g, m)
      ensures forall g :: g in old(files) ==> g in files && (g != d ==> files[g].size == old(files[g].size))
    {
      var n := files[d].size / BLOCK_SIZE;
      MakeLinkBlockKeeps(Image(), d);
      f := CreateFile(d);
      NamedKeeps(Image(), f, size, false);
      files := files[f := Empty().(size := size)];
      assert forall m: nat :: Link(Image(), f, m) == 0;
      FillFile(f, size);
    }

    /** The blocks of a file that has none. */
    method FillFile(f: nat, size: nat)
      requires Linked(Image()) && f in files && size <= NINDIRECT * BLOCK_SIZE
      requires forall m: nat :: Link(Image(), f, m) == 0
      modifies this`next, this`files, this`tables
      ensures Linked(Image()) && files.Keys == old(files.Keys)
      ensures forall i: nat :: BLOCK_SIZE * i < size <==> Link(Image(), f, i) != 0
      ensures forall g: nat, m: nat :: g != f ==> Link(Image(), g, m) == Link(old(Image()), g, m)
      ensures forall g :: g in files ==> files[g].size == old(files[g].size)
    {
      AppendAllKeeps(Image(), f, 0, BlockCount(size));
      WriteBlocks(f, BlockCount(size));
      forall i: nat ensures BLOCK_SIZE * i < size <==> Link(Image(), f, i) != 0 {
        CountIff(size, i);
      }
    }

    /** write_file's loop for `k` blocks of data. */
    method WriteBlocks(f: nat, k: nat)
      requires f in files && k <= NINDIRECT
      modifies this`next, this`files, this`tables
      ensures Image() == AppendAll(old(Image()), f, 0, k)
    {
      var iblk := 0;
      while iblk < k
        invariant iblk <= k && f in files
        invariant AppendAll(Image(), f, iblk, k) == AppendAll(old(Image()), f, 0, k)
      {
        var b := TakeBlock();
        SaveLink(f, iblk, b);
        iblk := iblk + 1;
      }
    }

    /** flush_bitmap. */
    method FlushBitmap()
      requires Flushed(bitmap[..], 0) && next <= NBLOCK
      modifies bitmap
      ensures Flushed(bitmap[..], next)
    {
      var i := 0;
      while i < next
        invariant i <= next && Flushed(bitmap[..], i)
      {
        ghost var was := bitmap[..];
        bitmap[i / 32] := bitmap[i / 32][i % 32 := false];
        assert bitmap[..] == Put(was, i, false);
        i := i + 1;
      }
    }
  }
}
