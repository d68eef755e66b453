/** A block that comes to a directory still cached (fs/fs.c): alloc_block does not clear it, and its File
    structures show what it held. */
module StaleBlocks {
  import opened Basics
  import opened PathNames
  import opened Paths
  import opened DiskLayout

  /** A block that no directory holds. */
  ghost predicate Unheld(v: Volume, b: nat) {
    FIRST_BLOCK <= b && forall d: nat :: b !in At(v, d).blocks
  }

  /** A name that walk_path can look for. */
  predicate Usable(n: string) { IsName(n) && |n| < MAXNAMELEN }

  /** When the block does no harm in directory `d`, where `name` is created: its structures but the first
      have no name that `d` would newly find, and the first leads to none. */
  ghost predicate Harmless(v: Volume, d: nat, b: nat, name: string) {
    && (forall j: nat :: 0 < j < FILE2BLK ==> !Appears(v, d, name, At(v, Place(b, j)).name))
    && (forall p: nat :: Within(v, Place(b, 0), p) ==> !Usable(At(v, p).name))
  }

  predicate Appears(v: Volume, d: nat, name: string, x: string) {
    Usable(x) && x != name && Lookup(v, d, x) == None
  }

  // ----- What the directory finds then -----

  /** The first structure of the block from the `j`-th on that has the name. */
  function InBlock(v: Volume, b: nat, m: string, j: nat): Option<nat>
    requires j <= FILE2BLK
    decreases FILE2BLK - j
  {
    if j == FILE2BLK then None
    else if At(v, Place(b, j)).name == m then Some(Place(b, j))
    else InBlock(v, b, m, j + 1)
  }

  lemma {:induction false} InBlockIff(v: Volume, b: nat, m: string, j: nat)
    requires j <= FILE2BLK
    ensures InBlock(v, b, m, j).Some? <==> exists i: nat :: j <= i < FILE2BLK && At(v, Place(b, i)).name == m
    decreases FILE2BLK - j
  {
    if j < FILE2BLK {
      InBlockIff(v, b, m, j + 1);
    }
  }

  lemma {:induction false} LastBlock(u: Volume, n: Node, bs: seq<nat>, b: nat, m: string, j: nat)
    requires n.blocks == bs + [b] && j <= FILE2BLK
    ensures FirstNamed(u, n, m, FILE2BLK * |bs| + j) == InBlock(u, b, m, j)
    decreases FILE2BLK - j
  {
    if j < FILE2BLK {
      assert (FILE2BLK * |bs| + j) / FILE2BLK == |bs| && (FILE2BLK * |bs| + j) % FILE2BLK == j;
      LastBlock(u, n, bs, b, m, j + 1);
    }
  }

  lemma SamePlace(n: Node, w: Node, b: nat, k: nat)
    requires w.blocks == n.blocks + [b] && k < FILE2BLK * |n.blocks|
    ensures NthPlace(w, k) == NthPlace(n, k)
  {
    assert w.blocks[k / FILE2BLK] == n.blocks[k / FILE2BLK];
  }

  /** The blocks that were there are looked through first, and as before. */
  lemma {:induction false} OldBlocks(v: Volume, u: Volume, n: Node, w: Node, b: nat, m: string, k: nat)
    requires w.blocks == n.blocks + [b] && k <= FILE2BLK * |n.blocks|
    requires forall i: nat :: i < FILE2BLK * |n.blocks| ==> SameAt(v, u, n, w, i)
    ensures FirstNamed(u, w, m, k) ==
      if FirstNamed(v, n, m, k).Some? then FirstNamed(v, n, m, k) else InBlock(u, b, m, 0)
    decreases FILE2BLK * |n.blocks| - k
  {
    if k == FILE2BLK * |n.blocks| {
      LastBlock(u, w, n.blocks, b, m, 0);
    } else {
      assert SameAt(v, u, n, w, k);
      OldBlocks(v, u, n, w, b, m, k + 1);
    }
  }

  /** The structure at that place is the same, and its name is. */
  predicate SameAt(v: Volume, u: Volume, n: Node, w: Node, i: nat) {
    && i < FILE2BLK * |n.blocks| && i < FILE2BLK * |w.blocks|
    && NthPlace(w, i) == NthPlace(n, i) && At(u, NthPlace(n, i)).name == At(v, NthPlace(n, i)).name
  }

  /** Names and blocks alike: the same lookups. */
  lemma {:induction false} SameLookup(v: Volume, u: Volume, n: Node, m: string, k: nat)
    requires k <= FILE2BLK * |n.blocks|
    requires forall p: nat :: p / FILE2BLK in n.blocks ==> At(u, p).name == At(v, p).name
    ensures FirstNamed(u, n, m, k) == FirstNamed(v, n, m, k)
    decreases FILE2BLK * |n.blocks| - k
  {
    if k < FILE2BLK * |n.blocks| {
      assert NthPlace(n, k) / FILE2BLK in n.blocks;
      SameLookup(v, u, n, m, k + 1);
    }
  }

  /** The volume after the full directory `d` took block `b` and the first structure got the name. */
  function Grown(v: Volume, d: nat, b: nat, name: string): Volume {
    var w := v[d := At(v, d).(blocks := At(v, d).blocks + [b])];
    w[Place(b, 0) := At(w, Place(b, 0)).(name := name)]
  }

  lemma InUnheld(v: Volume, b: nat, e: nat, p: nat)
    requires Unheld(v, b) && Within(v, e, p)
    ensures p != Place(b, 0)
  {
  }

  /** Entering any directory after that. */
  lemma GrownEnter(v: Volume, d: nat, b: nat, name: string, e: nat, m: string)
    requires Unheld(v, b) && d != Place(b, 0) && At(v, d).dir && IsName(m)
    ensures Enter(Grown(v, d, b, name), e, m) ==
      if e == d && |m| < MAXNAMELEN && Lookup(v, d, m).None? then InBlock(Grown(v, d, b, name), b, m, 0)
      else Enter(v, e, m)
  {
    var u := Grown(v, d, b, name);
    forall p: nat | p / FILE2BLK in At(v, e).blocks ensures At(u, p).name == At(v, p).name {
      InUnheld(v, b, e, p);
    }
    if e == d {
      forall i: nat | i < FILE2BLK * |At(v, d).blocks| ensures SameAt(v, u, At(v, d), At(u, d), i) {
        SamePlace(At(v, d), At(u, d), b, i);
      }
      OldBlocks(v, u, At(v, d), At(u, d), b, m, 0);
    } else {
      SameLookup(v, u, At(v, e), m, 0);
      SameNode(u, At(u, e), At(v, e), m, 0);
    }
  }

  lemma {:induction false} SameNode(u: Volume, n: Node, w: Node, m: string, k: nat)
    requires n.blocks == w.blocks && k <= FILE2BLK * |n.blocks|
    ensures FirstNamed(u, n, m, k) == FirstNamed(u, w, m, k)
    decreases FILE2BLK * |n.blocks| - k
  {
    if k < FILE2BLK * |n.blocks| {
      SameNode(u, n, w, m, k + 1);
    }
  }

  /** In the new block the created name comes first. */
  lemma BlockNames(v: Volume, d: nat, b: nat, name: string, m: string)
    ensures var u := Grown(v, d, b, name);
      && InBlock(u, b, m, 0) == (if m == name then Some(Place(b, 0)) else InBlock(u, b, m, 1))
      && (forall j: nat :: 0 < j < FILE2BLK ==> At(u, Place(b, j)).name == At(v, Place(b, j)).name)
  {
  }

  lemma HarmlessIsOneMore(v: Volume, d: nat, b: nat, name: string)
    requires Tree(v) && Unheld(v, b) && At(v, d).dir && d != Place(b, 0)
    requires Usable(name) && Lookup(v, d, name) == None && Harmless(v, d, b, name)
    ensures OneMore(v, Grown(v, d, b, name), d, Place(b, 0), name)
  {
    var u, f := Grown(v, d, b, name), Place(b, 0);
    forall e: nat, m: string | IsName(m)
      ensures Enter(u, e, m) == if e == d && m == name then Some(f) else Enter(v, e, m)
    {
      GrownEnter(v, d, b, name, e, m);
      BlockNames(v, d, b, name, m);
      InBlockIff(u, b, m, 1);
    }
    forall m: string | IsName(m) ensures Enter(v, f, m) == None {
      if Enter(v, f, m).Some? {
        assert Within(v, f, Enter(v, f, m).value);
      }
    }
  }

  // ----- What else opens then -----

  /** Whatever could be reached is reached still. */
  lemma {:induction false} ReachStays(v: Volume, d: nat, b: nat, name: string, at: nat, cs: seq<string>)
    requires Unheld(v, b) && d != Place(b, 0) && At(v, d).dir && AreNames(cs) && Reach(v, at, cs).Some?
    ensures Reach(Grown(v, d, b, name), at, cs) == Reach(v, at, cs)
    decreases |cs|
  {
    if cs != [] {
      assert IsName(cs[0]);
      GrownEnter(v, d, b, name, at, cs[0]);
      ReachStays(v, d, b, name, Enter(v, at, cs[0]).value, cs[1..]);
    }
  }

  /** A name behind the path of a directory. */
  lemma Behind(v: Volume, cs: seq<string>, x: string)
    requires AreNames(cs) && IsName(x)
    ensures Components(Join(cs + [x])) == cs + [x]
    ensures Opens(v, Join(cs + [x])) == if Reach(v, ROOT, cs).Some? then Enter(v, Reach(v, ROOT, cs).value, x) else None
  {
    SplitJoin(cs + [x]);
    ReachLast(v, ROOT, cs + [x]);
    assert (cs + [x])[..|cs|] == cs;
  }

  /** A leftover structure with a name of its own appears in the directory. */
  lemma LeftoverOpens(v: Volume, cs: seq<string>, d: nat, b: nat, name: string, j: nat)
    requires Unheld(v, b) && d != Place(b, 0) && At(v, d).dir && AreNames(cs) && Reach(v, ROOT, cs) == Some(d)
    requires 0 < j < FILE2BLK && Appears(v, d, name, At(v, Place(b, j)).name)
    ensures var q := Join(cs + [At(v, Place(b, j)).name]);
      && Components(q) == cs + [At(v, Place(b, j)).name]
      && Opens(v, q) == None && Opens(Grown(v, d, b, name), q).Some?
  {
    var x, u := At(v, Place(b, j)).name, Grown(v, d, b, name);
    Behind(v, cs, x);
    Behind(u, cs, x);
    ReachStays(v, d, b, name, ROOT, cs);
    GrownEnter(v, d, b, name, d, x);
    BlockNames(v, d, b, name, x);
    InBlockIff(u, b, x, 1);
  }

  /** What the first structure held appears below the new file. */
  lemma LeftoverBelow(v: Volume, cs: seq<string>, d: nat, b: nat, name: string, p: nat)
    requires Tree(v) && Unheld(v, b) && d != Place(b, 0) && At(v, d).dir
    requires AreNames(cs) && Reach(v, ROOT, cs) == Some(d)
    requires Usable(name) && Lookup(v, d, name) == None && Within(v, Place(b, 0), p) && Usable(At(v, p).name)
    ensures var q := Join(cs + [name] + [At(v, p).name]);
      && Components(q) == cs + [name] + [At(v, p).name]
      && Opens(v, q) == None && Opens(Grown(v, d, b, name), q).Some?
  {
    var x, u, f := At(v, p).name, Grown(v, d, b, name), Place(b, 0);
    Behind(v, cs, name);
    Behind(u, cs, name);
    Behind(v, cs + [name], x);
    Behind(u, cs + [name], x);
    ReachStays(v, d, b, name, ROOT, cs);
    GrownEnter(v, d, b, name, d, name);
    BlockNames(v, d, b, name, name);
    GrownEnter(v, d, b, name, f, x);
    WithinFinds(v, f, p);
  }

  // ----- When creation is safe -----

  lemma FullCreateIs(v: Volume, path: string, b: nat)
    requires var w := WalkPath(v, path); w.Missing? && FirstNamed(v, At(v, w.dir), "", 0).None?
    ensures var w := WalkPath(v, path); Create(v, path, Some(b)) == (Grown(v, w.dir, b, w.last), Ok(Place(b, 0)))
  {
  }

  /** The directory of a path is none of the structures of a block that nobody holds. */
  lemma ReachedIsHeld(v: Volume, cs: seq<string>, b: nat)
    requires Unheld(v, b) && AreNames(cs) && Reach(v, ROOT, cs).Some?
    ensures Reach(v, ROOT, cs) != Some(Place(b, 0))
  {
    if cs != [] {
      ReachLast(v, ROOT, cs);
    }
  }

  /** The created path opens the created file, and every other what it opened before. */
  ghost predicate OnlyAdds(v: Volume, u: Volume, path: string, f: nat) {
    forall q: string :: Opens(u, q) == if Components(q) == Components(path) then Some(f) else Opens(v, q)
  }

  /** file_create in a full directory, given a block that no directory holds: no other path is affected
      iff what the block still shows does no harm. */
  lemma CreateSafeIff(v: Volume, path: string, b: nat)
    requires Tree(v) && Unheld(v, b) && Create(v, path, Some(b)).1.Ok?
    ensures var (u, r) := Create(v, path, Some(b)); var w := WalkPath(v, path);
      w.Missing? && (OnlyAdds(v, u, path, r.value) <==>
                       FirstNamed(v, At(v, w.dir), "", 0).Some? || Harmless(v, w.dir, b, w.last))
  {
    var (u, r) := Create(v, path, Some(b));
    var w, cs := WalkPath(v, path), Components(path);
    var dcs, d, name := cs[..|cs| - 1], w.dir, w.last;
    CreateWhere(v, path, Some(b));
    ReachedIsHeld(v, dcs, b);
    if FirstNamed(v, At(v, d), "", 0).Some? {
      RoomIsSafe(v, path, b);
    } else {
      FullCreateIs(v, path, b);
      if Harmless(v, d, b, name) {
        HarmlessIsOneMore(v, d, b, name);
        forall q: string ensures Opens(u, q) == if Components(q) == cs then Some(r.value) else Opens(v, q) {
          OneMoreOpens(v, u, path, d, r.value, q);
        }
      } else {
        HarmShows(v, path, dcs, d, b, name);
      }
    }
  }

  /** A directory with room needs no block. */
  lemma RoomIsSafe(v: Volume, path: string, b: nat)
    requires Tree(v) && Create(v, path, Some(b)).1.Ok? && WalkPath(v, path).Missing?
    requires FirstNamed(v, At(v, WalkPath(v, path).dir), "", 0).Some?
    ensures var (u, r) := Create(v, path, Some(b)); OnlyAdds(v, u, path, r.value)
  {
    var (u, r) := Create(v, path, Some(b));
    assert Create(v, path, None) == (u, r);
    forall q: string ensures Opens(u, q) == if Components(q) == Components(path) then Some(r.value) else Opens(v, q) {
      CreateOpens(v, path, None, q);
    }
  }

  lemma HarmShows(v: Volume, path: string, dcs: seq<string>, d: nat, b: nat, name: string)
    requires Tree(v) && Unheld(v, b) && d != Place(b, 0) && At(v, d).dir
    requires AreNames(dcs) && Reach(v, ROOT, dcs) == Some(d)
    requires Components(path) == dcs + [name] && Usable(name) && Lookup(v, d, name) == None
    requires !Harmless(v, d, b, name)
    ensures !OnlyAdds(v, Grown(v, d, b, name), path, Place(b, 0))
  {
    var u := Grown(v, d, b, name);
    if j: nat :| 0 < j < FILE2BLK && Appears(v, d, name, At(v, Place(b, j)).name) {
      LeftoverOpens(v, dcs, d, b, name, j);
      var q := Join(dcs + [At(v, Place(b, j)).name]);
      assert Components(q)[|dcs|] != Components(path)[|dcs|];
      assert Opens(u, q) != Opens(v, q);
    } else {
      var p: nat :| Within(v, Place(b, 0), p) && Usable(At(v, p).name);
      LeftoverBelow(v, dcs, d, b, name, p);
      var q := Join(dcs + [name] + [At(v, p).name]);
      assert |Components(q)| != |Components(path)|;
      assert Opens(u, q) != Opens(v, q);
    }
  }

  // ----- And how it comes about -----

  /** A directory is removed that still has entries; one of its blocks is free then, and goes to a full
      directory that lacks the name of an entry.  That entry, removed with its directory, opens there. */
  lemma RemovedEntryReturns(v: Volume, gone: string, b: nat, j: nat, path: string)
    requires Tree(v) && Components(gone) != [] && Opens(v, gone).Some?
    requires b in At(v, Opens(v, gone).value).blocks && 0 < j < FILE2BLK
    requires var v1 := Remove(v, gone).0; var w := WalkPath(v1, path);
      w.Missing? && FirstNamed(v1, At(v1, w.dir), "", 0).None? && Appears(v1, w.dir, w.last, At(v, Place(b, j)).name)
    ensures var v1 := Remove(v, gone).0;
      && Remove(v, gone).1.Ok? && Unheld(v1, b) && Create(v1, path, Some(b)).1.Ok?
      && var u := Create(v1, path, Some(b)).0;
         exists q: string :: Components(q) != Components(path) && Opens(v1, q) == None && Opens(u, q).Some?
  {
    RemovedLeaves(v, gone, b, j);
    LeftoverReturns(Remove(v, gone).0, b, j, path);
  }

  /** A removed directory leaves its entries where they are, in blocks that nobody holds. */
  lemma RemovedLeaves(v: Volume, gone: string, b: nat, j: nat)
    requires Tree(v) && Components(gone) != [] && Opens(v, gone).Some?
    requires b in At(v, Opens(v, gone).value).blocks && j < FILE2BLK
    ensures var v1 := Remove(v, gone).0;
      Remove(v, gone).1.Ok? && Unheld(v1, b) && At(v1, Place(b, j)) == At(v, Place(b, j))
  {
    var f := Opens(v, gone).value;
    var v1 := Remove(v, gone).0;
    WalkIsReach(v, None, ROOT, Components(gone));
    assert v1 == v[f := At(v, f).(name := "", blocks := [])];
    assert forall d: nat :: At(v1, d).blocks == if d == f then [] else At(v, d).blocks;
    EntryOfOther(v, gone, b, j);
  }

  lemma LeftoverReturns(v: Volume, b: nat, j: nat, path: string)
    requires Unheld(v, b) && 0 < j < FILE2BLK
    requires var w := WalkPath(v, path);
      w.Missing? && FirstNamed(v, At(v, w.dir), "", 0).None? && Appears(v, w.dir, w.last, At(v, Place(b, j)).name)
    ensures Create(v, path, Some(b)).1.Ok?
    ensures var u := Create(v, path, Some(b)).0;
      exists q: string :: Components(q) != Components(path) && Opens(v, q) == None && Opens(u, q).Some?
  {
    var w, cs := WalkPath(v, path), Components(path);
    var dcs := cs[..|cs| - 1];
    FullCreateIs(v, path, b);
    CreateWhere(v, path, Some(b));
    ReachedIsHeld(v, dcs, b);
    LeftoverOpens(v, dcs, w.dir, b, w.last, j);
    var q := Join(dcs + [At(v, Place(b, j)).name]);
    assert Components(q)[|dcs|] != cs[|dcs|];
  }

  /** No directory lies in a block of its own. */
  lemma EntryOfOther(v: Volume, gone: string, b: nat, j: nat)
    requires Tree(v) && Components(gone) != [] && Opens(v, gone).Some? && j < FILE2BLK
    requires b in At(v, Opens(v, gone).value).blocks
    ensures Place(b, j) != Opens(v, gone).value
  {
    ComponentsAreNames(gone);
    NotWithinItself(v, Components(gone));
    assert Place(b, j) / FILE2BLK == b;
  }

  lemma NotWithinItself(v: Volume, cs: seq<string>)
    requires Tree(v) && AreNames(cs) && cs != [] && Reach(v, ROOT, cs).Some?
    ensures var f := Reach(v, ROOT, cs).value; !Within(v, f, f)
  {
    var front, f := cs[..|cs| - 1], Reach(v, ROOT, cs).value;
    ReachLast(v, ROOT, cs);
    var d := Reach(v, ROOT, front).value;
    assert Within(v, d, f);
    if d == f {
      OnePath(v, cs, front);
    }
  }
}
