/** Directories of the file server (fs/fs.c): looking up, creating and removing by path. */
module Paths {
  import opened Basics
  import opened PathNames
  import opened DiskLayout

  /** `blocks` are a directory's blocks in order; an unused structure has an empty name. */
  datatype Node = Node(name: string, dir: bool, blocks: seq<nat>)

  const UNUSED := Node("", false, [])

  /** The File structures that are not all zeros. */
  type Volume = map<nat, Node>

  function At(v: Volume, p: nat): Node { if p in v then v[p] else UNUSED }

  function NthPlace(d: Node, k: nat): (p: nat)
    requires k < FILE2BLK * |d.blocks|
    ensures p / FILE2BLK in d.blocks
  {
    Place(d.blocks[k / FILE2BLK], k % FILE2BLK)
  }

  ghost predicate Within(v: Volume, d: nat, p: nat) { p / FILE2BLK in At(v, d).blocks }

  /** Blocks belong to one directory; names are unique in it; an unused structure holds nothing. */
  ghost predicate Tree(v: Volume) {
    && (forall d: nat :: At(v, d).blocks != [] ==> At(v, d).dir)
    && (forall d: nat, b: nat :: b in At(v, d).blocks ==> FIRST_BLOCK <= b)
    && (forall d: nat, e: nat, b: nat :: b in At(v, d).blocks && b in At(v, e).blocks ==> d == e)
    && (forall d: nat, p: nat, q: nat ::
          Within(v, d, p) && Within(v, d, q) && At(v, p).name == At(v, q).name != "" ==> p == q)
    && (forall p: nat :: p != ROOT && At(v, p).name == "" ==> At(v, p).blocks == [])
  }

  // ----- Lookup -----

  /** The first structure from the `k`-th on that has the name. */
  function FirstNamed(v: Volume, d: Node, name: string, k: nat): (r: Option<nat>)
    requires k <= FILE2BLK * |d.blocks|
    ensures r.Some? ==> r.value / FILE2BLK in d.blocks && At(v, r.value).name == name
    decreases FILE2BLK * |d.blocks| - k
  {
    if k == FILE2BLK * |d.blocks| then None
    else if At(v, NthPlace(d, k)).name == name then Some(NthPlace(d, k))
    else FirstNamed(v, d, name, k + 1)
  }

  function Lookup(v: Volume, d: nat, name: string): Option<nat> { FirstNamed(v, At(v, d), name, 0) }

  datatype Walk =
    | Found(parent: Option<nat>, file: nat)
    | Missing(dir: nat, last: string)
    | NotFound
    | BadPath

  /** walk_path from `file`, which was found in `parent`, for the components left. */
  function WalkFrom(v: Volume, parent: Option<nat>, file: nat, cs: seq<string>): Walk
    decreases |cs|
  {
    if cs == [] then Found(parent, file)
    else if |cs[0]| >= MAXNAMELEN then BadPath
    else if !At(v, file).dir then NotFound
    else
      match Lookup(v, file, cs[0])
      case Some(f) => WalkFrom(v, Some(file), f, cs[1..])
      case None => if |cs| == 1 then Missing(file, cs[0]) else NotFound
  }

  function WalkPath(v: Volume, path: string): Walk { WalkFrom(v, None, ROOT, Components(path)) }

  // ----- Creation and removal -----

  /** E_READ stands for any error of file_get_block. */
  datatype Error = E_NOT_FOUND | E_BAD_PATH | E_FILE_EXISTS | E_READ

  /** dir_alloc_file: `grant` is the block that file_get_block allocates if it must; 0 stands for
      the hole that a failed allocation leaves. */
  function AllocFile(v: Volume, d: nat, grant: Option<nat>): (Volume, Option<nat>) {
    match FirstNamed(v, At(v, d), "", 0)
    case Some(f) => (v, Some(f))
    case None =>
      var b := if grant.Some? then grant.value else 0;
      var u := v[d := At(v, d).(blocks := At(v, d).blocks + [b])];
      (u, if grant.Some? then Some(Place(b, 0)) else None)
  }

  function Create(v: Volume, path: string, grant: Option<nat>): (Volume, Result<nat, Error>) {
    match WalkPath(v, path)
    case Found(_, _) => (v, Err(E_FILE_EXISTS))
    case NotFound => (v, Err(E_NOT_FOUND))
    case BadPath => (v, Err(E_BAD_PATH))
    case Missing(d, name) =>
      var (u, f) := AllocFile(v, d, grant);
      if f.None? then (u, Err(E_NOT_FOUND))
      else (u[f.value := At(u, f.value).(name := name)], Ok(f.value))
  }

  function Remove(v: Volume, path: string): (Volume, Result<nat, Error>) {
    match WalkPath(v, path)
    case Found(_, f) => (v[f := At(v, f).(name := "", blocks := [])], Ok(f))
    case BadPath => (v, Err(E_BAD_PATH))
    case _ => (v, Err(E_NOT_FOUND))
  }

  // ----- What a path opens -----

  function Enter(v: Volume, d: nat, name: string): Option<nat> {
    if |name| < MAXNAMELEN && At(v, d).dir then Lookup(v, d, name) else None
  }

  function Reach(v: Volume, d: nat, cs: seq<string>): Option<nat>
    decreases |cs|
  {
    if cs == [] then Some(d)
    else if Enter(v, d, cs[0]).None? then None
    else Reach(v, Enter(v, d, cs[0]).value, cs[1..])
  }

  /** What file_open gives for the path. */
  function Opens(v: Volume, path: string): Option<nat> { Reach(v, ROOT, Components(path)) }

  /** walk_path finds what the components lead to; its parent is what all but the last lead to; and
      it offers a directory to create in iff only the last component is missing. */
  lemma {:induction false} WalkIsReach(v: Volume, parent: Option<nat>, at: nat, cs: seq<string>)
    ensures var w := WalkFrom(v, parent, at, cs); var n := |cs| - 1;
      && (w.Found? <==> Reach(v, at, cs).Some?)
      && (w.Found? ==> Reach(v, at, cs) == Some(w.file))
      && (w.Found? ==> w.parent == if cs == [] then parent else Reach(v, at, cs[..n]))
      && (w.Missing? <==>
            (cs != [] && Reach(v, at, cs[..n]).Some? && |cs[n]| < MAXNAMELEN && Reach(v, at, cs).None?
             && At(v, Reach(v, at, cs[..n]).value).dir))
      && (w.Missing? ==> Reach(v, at, cs[..n]) == Some(w.dir) && w.last == cs[n])
    decreases |cs|
  {
    if cs != [] {
      if |cs| == 1 {
        assert cs[..0] == [];
      } else {
        assert cs[1..][..|cs| - 2] == cs[..|cs| - 1][1..];
        assert cs[..|cs| - 1][0] == cs[0];
      }
      if Enter(v, at, cs[0]).Some? {
        WalkIsReach(v, Some(at), Enter(v, at, cs[0]).value, cs[1..]);
      }
    }
  }

  // ----- Lookup is by name -----

  lemma {:induction false} FirstNamedFinds(v: Volume, d: Node, name: string, k: nat, j: nat)
    requires k <= j < FILE2BLK * |d.blocks| && At(v, NthPlace(d, j)).name == name
    ensures FirstNamed(v, d, name, k).Some?
    decreases j - k
  {
    if k < j {
      FirstNamedFinds(v, d, name, k + 1, j);
    }
  }

  /** And it is the first one. */
  lemma {:induction false} FirstNamedIsFirst(v: Volume, d: Node, name: string, k: nat) returns (j: nat)
    requires k <= FILE2BLK * |d.blocks| && FirstNamed(v, d, name, k).Some?
    ensures k <= j < FILE2BLK * |d.blocks| && FirstNamed(v, d, name, k) == Some(NthPlace(d, j))
    ensures At(v, NthPlace(d, j)).name == name
    ensures forall i :: k <= i < j ==> At(v, NthPlace(d, i)).name != name
    decreases FILE2BLK * |d.blocks| - k
  {
    if At(v, NthPlace(d, k)).name == name {
      j := k;
    } else {
      j := FirstNamedIsFirst(v, d, name, k + 1);
    }
  }

  lemma WithinFinds(v: Volume, d: nat, p: nat)
    requires Within(v, d, p)
    ensures Lookup(v, d, At(v, p).name).Some?
  {
    var n := At(v, d);
    var i :| 0 <= i < |n.blocks| && n.blocks[i] == p / FILE2BLK;
    var j := FILE2BLK * i + p % FILE2BLK;
    assert j / FILE2BLK == i && j % FILE2BLK == p % FILE2BLK;
    assert NthPlace(n, j) == p;
    FirstNamedFinds(v, n, At(v, p).name, 0, j);
  }

  /** In a tree a lookup finds exactly the structure of that name within the directory. */
  lemma LookupIff(v: Volume, d: nat, name: string, p: nat)
    requires Tree(v) && name != ""
    ensures Lookup(v, d, name) == Some(p) <==> Within(v, d, p) && At(v, p).name == name
  {
    if Within(v, d, p) && At(v, p).name == name {
      WithinFinds(v, d, p);
      var q := Lookup(v, d, name).value;
      assert Within(v, d, q);
    }
  }

  lemma {:induction false} ReachAppend(v: Volume, d: nat, a: seq<string>, b: seq<string>)
    ensures Reach(v, d, a + b) == if Reach(v, d, a).Some? then Reach(v, Reach(v, d, a).value, b) else None
    decreases |a|
  {
    if a == [] {
      assert a + b == b;
    } else {
      assert (a + b)[1..] == a[1..] + b;
      if Enter(v, d, a[0]).Some? {
        ReachAppend(v, Enter(v, d, a[0]).value, a[1..], b);
      }
    }
  }

  lemma ReachLast(v: Volume, d: nat, a: seq<string>)
    requires a != []
    ensures var n := |a| - 1; var m := Reach(v, d, a[..n]);
      Reach(v, d, a) == if m.Some? then Enter(v, m.value, a[n]) else None
  {
    var n := |a| - 1;
    assert a == a[..n] + [a[n]];
    ReachAppend(v, d, a[..n], [a[n]]);
    if Reach(v, d, a[..n]).Some? {
      var e := Enter(v, Reach(v, d, a[..n]).value, a[n]);
      if e.Some? {
        assert Reach(v, e.value, [a[n]][1..]) == e;
      }
    }
  }

  /** A structure of the tree is reached by one sequence of names only. */
  lemma {:induction false} OnePath(v: Volume, a: seq<string>, b: seq<string>)
    requires Tree(v) && AreNames(a) && AreNames(b)
    requires Reach(v, ROOT, a).Some? && Reach(v, ROOT, a) == Reach(v, ROOT, b)
    ensures a == b
    decreases |a|
  {
    if a != [] {
      ReachLast(v, ROOT, a);
    }
    if b != [] {
      ReachLast(v, ROOT, b);
    }
    if a != [] && b != [] {
      var m, n := |a| - 1, |b| - 1;
      OnePath(v, a[..m], b[..n]);
      assert a == a[..m] + [a[m]] && b == b[..n] + [b[n]];
    }
  }

  // ----- Creating -----

  /** A block that file_get_block may hand to a directory: no directory's yet, and all zeros. */
  ghost predicate Zeroed(v: Volume, b: nat) {
    && FIRST_BLOCK <= b
    && (forall d: nat :: b !in At(v, d).blocks)
    && (forall p: nat :: p / FILE2BLK == b ==> At(v, p) == UNUSED)
  }

  /** `f` in directory `d` goes from unused to `name`, and nothing else does. */
  ghost predicate Added(v: Volume, u: Volume, d: nat, f: nat, name: string) {
    && At(v, f).name == "" && At(u, f) == At(v, f).(name := name) && f != ROOT && f != d && At(v, f).blocks == []
    && (forall p: nat :: p != f ==> At(u, p).name == At(v, p).name)
    && (forall p: nat :: At(u, p).dir == At(v, p).dir)
    && (forall e: nat :: Within(u, e, f) <==> e == d)
    && (forall e: nat, p: nat :: p != f && At(v, p).name != "" ==> (Within(u, e, p) <==> Within(v, e, p)))
  }

  /** The directory's own unused structure gets the name. */
  lemma NamingAdds(v: Volume, d: nat, f: nat, name: string)
    requires Tree(v) && Within(v, d, f) && At(v, f).name == "" && name != "" && Lookup(v, d, name).None?
    ensures var u := v[f := At(v, f).(name := name)]; Tree(u) && Added(v, u, d, f, name)
  {
    var u := v[f := At(v, f).(name := name)];
    assert forall e: nat :: At(u, e).blocks == At(v, e).blocks;
    assert forall e: nat, p: nat :: Within(u, e, p) <==> Within(v, e, p);
    forall e: nat, p: nat, q: nat |
      Within(u, e, p) && Within(u, e, q) && At(u, p).name == At(u, q).name != ""
      ensures p == q
    {
      if p == f || q == f {
        var o := if p == f then q else p;
        if o != f {
          WithinFinds(v, d, o);
        }
      }
    }
  }

  /** A zeroed block joins the directory: nothing that has a name moves. */
  lemma GrowthKeeps(v: Volume, d: nat, b: nat)
    requires Tree(v) && At(v, d).dir && Zeroed(v, b) && (d == ROOT || At(v, d).name != "")
    ensures var w := v[d := At(v, d).(blocks := At(v, d).blocks + [b])];
      && Tree(w) && (forall m :: m != "" && Lookup(v, d, m).None? ==> Lookup(w, d, m).None?)
      && (forall e: nat, p: nat :: Within(w, e, p) <==> Within(v, e, p) || (e == d && p / FILE2BLK == b))
  {
    var w := v[d := At(v, d).(blocks := At(v, d).blocks + [b])];
    assert forall p: nat :: At(w, p).name == At(v, p).name && At(w, p).dir == At(v, p).dir;
    assert forall e: nat, p: nat :: Within(w, e, p) <==> Within(v, e, p) || (e == d && p / FILE2BLK == b);
    forall m | m != "" && Lookup(v, d, m).None? ensures Lookup(w, d, m).None? {
      if Lookup(w, d, m).Some? {
        WithinFinds(v, d, Lookup(w, d, m).value);
      }
    }
  }

  lemma AllocAdds(v: Volume, d: nat, grant: Option<nat>, name: string)
    requires Tree(v) && At(v, d).dir && (d == ROOT || At(v, d).name != "") && (grant.Some? ==> Zeroed(v, grant.value))
    requires AllocFile(v, d, grant).1.Some? && name != "" && Lookup(v, d, name).None?
    ensures var (w, f) := AllocFile(v, d, grant); var u := w[f.value := At(w, f.value).(name := name)];
      Tree(u) && Added(v, u, d, f.value, name)
  {
    if FirstNamed(v, At(v, d), "", 0).Some? {
      NamingAdds(v, d, FirstNamed(v, At(v, d), "", 0).value, name);
    } else {
      var b := grant.value;
      GrowthKeeps(v, d, b);
      var w := v[d := At(v, d).(blocks := At(v, d).blocks + [b])];
      assert Place(b, 0) / FILE2BLK == b;
      assert At(v, Place(b, 0)) == UNUSED;
      NamingAdds(w, d, Place(b, 0), name);
    }
  }

  lemma AddedLookup(v: Volume, u: Volume, d: nat, f: nat, name: string, e: nat, m: string)
    requires Tree(v) && Tree(u) && Added(v, u, d, f, name) && name != "" && m != ""
    requires Lookup(v, d, name).None?
    ensures Lookup(u, e, m) == if e == d && m == name then Some(f) else Lookup(v, e, m)
  {
    if e == d && m == name {
      LookupIff(u, e, m, f);
    } else {
      if Lookup(u, e, m).Some? {
        LookupIff(u, e, m, Lookup(u, e, m).value);
        LookupIff(v, e, m, Lookup(u, e, m).value);
      }
      if Lookup(v, e, m).Some? {
        LookupIff(v, e, m, Lookup(v, e, m).value);
        LookupIff(u, e, m, Lookup(v, e, m).value);
      }
    }
  }

  /** One more name can be entered: `name` in `d`, which is `f`, and nothing below it. */
  ghost predicate OneMore(v: Volume, u: Volume, d: nat, f: nat, name: string) {
    && d != f && IsName(name) && Enter(v, d, name) == None
    && (forall e: nat, m: string :: IsName(m) ==>
          Enter(u, e, m) == if e == d && m == name then Some(f) else Enter(v, e, m))
    && (forall m: string :: IsName(m) ==> Enter(v, f, m) == None)
  }

  lemma AddedIsOneMore(v: Volume, u: Volume, d: nat, f: nat, name: string)
    requires Tree(v) && Tree(u) && Added(v, u, d, f, name) && IsName(name) && |name| < MAXNAMELEN
    requires At(v, d).dir && Lookup(v, d, name).None?
    ensures OneMore(v, u, d, f, name)
  {
    forall e: nat, m: string | IsName(m)
      ensures Enter(u, e, m) == if e == d && m == name then Some(f) else Enter(v, e, m)
    {
      AddedLookup(v, u, d, f, name, e, m);
    }
  }

  lemma {:induction false} OneMoreReach(v: Volume, u: Volume, d: nat, f: nat, name: string, at: nat, cs: seq<string>)
    requires OneMore(v, u, d, f, name) && AreNames(cs)
    ensures var n := |cs| - 1;
      Reach(u, at, cs) ==
        if cs != [] && cs[n] == name && Reach(v, at, cs[..n]) == Some(d) then Some(f) else Reach(v, at, cs)
    decreases |cs|
  {
    if cs != [] {
      var n, c := |cs| - 1, cs[0];
      assert IsName(c);
      if n > 0 {
        assert cs[..n][0] == c && cs[..n][1..] == cs[1..][..n - 1] && IsName(cs[1]) && cs[1..][0] == cs[1];
      }
      if at == d && c == name {
        assert n > 0 ==> Reach(u, f, cs[1..]) == None;
      } else if Enter(v, at, c).Some? {
        OneMoreReach(v, u, d, f, name, Enter(v, at, c).value, cs[1..]);
      }
    }
  }

  /** A directory that a path leads to is the root or has a name. */
  lemma ReachedIsNamed(v: Volume, cs: seq<string>)
    requires AreNames(cs) && Reach(v, ROOT, cs).Some?
    ensures var d := Reach(v, ROOT, cs).value; d == ROOT || At(v, d).name != ""
  {
    if cs != [] {
      ReachLast(v, ROOT, cs);
    }
  }

  /** Where a success puts the file: the directory that all but the last component lead to lacks it. */
  lemma CreateWhere(v: Volume, path: string, grant: Option<nat>)
    requires Create(v, path, grant).1.Ok?
    ensures var cs := Components(path); var n := |cs| - 1; var w := WalkPath(v, path);
      && AreNames(cs) && cs != [] && |cs[n]| < MAXNAMELEN && Opens(v, path) == None
      && w.Missing? && w.last == cs[n] && Reach(v, ROOT, cs[..n]) == Some(w.dir)
      && At(v, w.dir).dir && Lookup(v, w.dir, cs[n]).None? && (w.dir == ROOT || At(v, w.dir).name != "")
  {
    var cs := Components(path);
    ComponentsAreNames(path);
    WalkIsReach(v, None, ROOT, cs);
    ReachLast(v, ROOT, cs);
    ReachedIsNamed(v, cs[..|cs| - 1]);
  }

  lemma CreateOneMore(v: Volume, path: string, grant: Option<nat>)
    requires Tree(v) && (grant.Some? ==> Zeroed(v, grant.value)) && Create(v, path, grant).1.Ok?
    ensures var (u, r) := Create(v, path, grant); var w := WalkPath(v, path);
      Tree(u) && w.Missing? && OneMore(v, u, w.dir, r.value, w.last)
  {
    var w := WalkPath(v, path);
    CreateWhere(v, path, grant);
    AllocAdds(v, w.dir, grant, w.last);
    AddedIsOneMore(v, Create(v, path, grant).0, w.dir, Create(v, path, grant).1.value, w.last);
  }

  /** No other path ends in the same name in the same directory. */
  lemma OnlyThere(v: Volume, cs: seq<string>, qs: seq<string>)
    requires Tree(v) && AreNames(cs) && AreNames(qs) && cs != [] && Reach(v, ROOT, cs[..|cs| - 1]).Some?
    ensures qs == cs <==> (qs != [] && qs[|qs| - 1] == cs[|cs| - 1]
                           && Reach(v, ROOT, qs[..|qs| - 1]) == Reach(v, ROOT, cs[..|cs| - 1]))
  {
    var n, m := |cs| - 1, |qs| - 1;
    if qs != [] && qs[m] == cs[n] && Reach(v, ROOT, qs[..m]) == Reach(v, ROOT, cs[..n]) {
      OnePath(v, qs[..m], cs[..n]);
      SameEnds(qs, cs);
    }
  }

  /** After a file is created its path, however its slashes are written, opens that very structure;
      every other path opens what it opened; and the directories are a tree again. */
  lemma CreateOpens(v: Volume, path: string, grant: Option<nat>, q: string)
    requires Tree(v) && (grant.Some? ==> Zeroed(v, grant.value)) && Create(v, path, grant).1.Ok?
    ensures var (u, r) := Create(v, path, grant);
      && Tree(u)
      && Opens(v, path) == None
      && Opens(u, q) == if Components(q) == Components(path) then Some(r.value) else Opens(v, q)
  {
    CreateWhere(v, path, grant);
    CreateOneMore(v, path, grant);
    OneMoreOpens(v, Create(v, path, grant).0, path, WalkPath(v, path).dir, Create(v, path, grant).1.value, q);
  }

  lemma OneMoreOpens(v: Volume, u: Volume, path: string, d: nat, f: nat, q: string)
    requires Tree(v) && Components(path) != []
    requires var cs := Components(path); OneMore(v, u, d, f, cs[|cs| - 1]) && Reach(v, ROOT, cs[..|cs| - 1]) == Some(d)
    ensures Opens(u, q) == if Components(q) == Components(path) then Some(f) else Opens(v, q)
  {
    var cs, qs := Components(path), Components(q);
    ComponentsAreNames(path);
    ComponentsAreNames(q);
    OnlyThere(v, cs, qs);
    OneMoreReach(v, u, d, f, cs[|cs| - 1], ROOT, qs);
  }

  lemma SameEnds(a: seq<string>, b: seq<string>)
    requires a != [] && b != [] && a[|a| - 1] == b[|b| - 1] && a[..|a| - 1] == b[..|b| - 1]
    ensures a == b
  {
    assert a == a[..|a| - 1] + [a[|a| - 1]] && b == b[..|b| - 1] + [b[|b| - 1]];
  }

  /** The other outcomes.  A name that is there already is refused, and no path is created in a missing
      or too long one.  The volume changes iff the directory is full and no block can be had: then the
      directory is one block longer than the blocks it has, and the caller is told E_NOT_FOUND. */
  lemma CreateFails(v: Volume, path: string, grant: Option<nat>)
    requires Create(v, path, grant).1.Err?
    ensures var (u, r) := Create(v, path, grant); var w := WalkPath(v, path);
      && (r.error == E_FILE_EXISTS <==> Opens(v, path).Some?)
      && (r.error == E_BAD_PATH <==> w.BadPath?)
      && (u != v <==> w.Missing? && grant == None && FirstNamed(v, At(v, w.dir), "", 0).None?)
      && (u != v ==> r.error == E_NOT_FOUND
                     && u == v[w.dir := At(v, w.dir).(blocks := At(v, w.dir).blocks + [0])])
  {
    var (u, r) := Create(v, path, grant);
    var w := WalkPath(v, path);
    WalkIsReach(v, None, ROOT, Components(path));
    if w.Missing? && grant == None && FirstNamed(v, At(v, w.dir), "", 0).None? {
      assert |At(u, w.dir).blocks| != |At(v, w.dir).blocks|;
    }
  }

  /** The walk comes to a component that is too long for a name. */
  ghost predicate TooLong(v: Volume, at: nat, cs: seq<string>) {
    exists i: nat :: i < |cs| && Reach(v, at, cs[..i]).Some? && |cs[i]| >= MAXNAMELEN
  }

  lemma {:induction false} BadPathIff(v: Volume, parent: Option<nat>, at: nat, cs: seq<string>)
    ensures WalkFrom(v, parent, at, cs).BadPath? <==> TooLong(v, at, cs)
    decreases |cs|
  {
    if cs != [] {
      assert forall i: nat :: 0 < i < |cs| ==> cs[..i][1..] == cs[1..][..i - 1] && cs[..i][0] == cs[0];
      if |cs[0]| >= MAXNAMELEN {
        assert Reach(v, at, cs[..0]) == Some(at);
      } else if Enter(v, at, cs[0]).Some? {
        var e := Enter(v, at, cs[0]).value;
        BadPathIff(v, Some(at), e, cs[1..]);
        if TooLong(v, e, cs[1..]) {
          var i: nat :| i < |cs[1..]| && Reach(v, e, cs[1..][..i]).Some? && |cs[1..][i]| >= MAXNAMELEN;
          assert Reach(v, at, cs[..i + 1]) == Reach(v, e, cs[1..][..i]);
        }
        if TooLong(v, at, cs) {
          var i: nat :| i < |cs| && Reach(v, at, cs[..i]).Some? && |cs[i]| >= MAXNAMELEN;
          assert Reach(v, at, cs[..i]) == Reach(v, e, cs[1..][..i - 1]) && cs[i] == cs[1..][i - 1];
        }
      }
    }
  }

  /** There is an unused structure in the directory. */
  ghost predicate HasRoom(v: Volume, d: nat) { exists p: nat :: Within(v, d, p) && At(v, p).name == "" }

  lemma RoomIff(v: Volume, d: nat)
    ensures HasRoom(v, d) <==> FirstNamed(v, At(v, d), "", 0).Some?
  {
    if HasRoom(v, d) {
      var p: nat :| Within(v, d, p) && At(v, p).name == "";
      WithinFinds(v, d, p);
    }
  }

  /** When a path is created: nothing is there, all but its last component lead to a directory, that one is
      short enough, and there is an unused structure in the directory or a block for a new one. */
  lemma CreateIff(v: Volume, path: string, grant: Option<nat>)
    ensures var cs := Components(path); var n := |cs| - 1;
      Create(v, path, grant).1.Ok? <==>
        (&& cs != [] && |cs[n]| < MAXNAMELEN && Opens(v, path).None?
         && Reach(v, ROOT, cs[..n]).Some? && At(v, Reach(v, ROOT, cs[..n]).value).dir
         && (grant.Some? || HasRoom(v, Reach(v, ROOT, cs[..n]).value)))
  {
    var cs := Components(path);
    WalkIsReach(v, None, ROOT, cs);
    var w := WalkPath(v, path);
    if w.Missing? {
      RoomIff(v, w.dir);
    }
  }

  /** What the caller is told otherwise, by both calls. */
  lemma CallErrors(v: Volume, path: string, grant: Option<nat>)
    ensures var r := Create(v, path, grant).1; var (u, s) := Remove(v, path);
      && (r == Err(E_FILE_EXISTS) <==> Opens(v, path).Some?)
      && (r == Err(E_BAD_PATH) <==> TooLong(v, ROOT, Components(path)))
      && (r.Err? ==> r.error != E_READ)
      && (s.Ok? <==> Opens(v, path).Some?) && (s.Ok? ==> Opens(v, path) == Some(s.value))
      && (s == Err(E_BAD_PATH) <==> TooLong(v, ROOT, Components(path)))
      && (s.Err? ==> u == v && (s.error == E_BAD_PATH || s.error == E_NOT_FOUND))
  {
    WalkIsReach(v, None, ROOT, Components(path));
    BadPathIff(v, None, ROOT, Components(path));
  }

  // ----- Removing -----

  lemma RemovedKeeps(v: Volume, f: nat)
    requires Tree(v)
    ensures Tree(v[f := At(v, f).(name := "", blocks := [])])
  {
    var u := v[f := At(v, f).(name := "", blocks := [])];
    assert forall d: nat :: At(u, d).blocks == if d == f then [] else At(v, d).blocks;
    assert forall d: nat, p: nat :: Within(u, d, p) ==> Within(v, d, p);
  }

  lemma RemovedLookup(v: Volume, f: nat, e: nat, m: string)
    requires Tree(v) && m != ""
    ensures var u := v[f := At(v, f).(name := "", blocks := [])];
      Lookup(u, e, m) == if e == f || Lookup(v, e, m) == Some(f) then None else Lookup(v, e, m)
  {
    var u := v[f := At(v, f).(name := "", blocks := [])];
    RemovedKeeps(v, f);
    if Lookup(u, e, m).Some? {
      LookupIff(u, e, m, Lookup(u, e, m).value);
      LookupIff(v, e, m, Lookup(u, e, m).value);
    }
    if Lookup(v, e, m).Some? {
      LookupIff(v, e, m, Lookup(v, e, m).value);
      LookupIff(u, e, m, Lookup(v, e, m).value);
    }
  }

  /** A prefix of the names leads from `at` to `f`. */
  ghost predicate Through(v: Volume, at: nat, cs: seq<string>, f: nat) {
    exists i: nat :: 0 < i <= |cs| && Reach(v, at, cs[..i]) == Some(f)
  }

  lemma {:induction false} RemovedReach(v: Volume, f: nat, at: nat, cs: seq<string>)
    requires Tree(v) && AreNames(cs) && at != f
    ensures var u := v[f := At(v, f).(name := "", blocks := [])];
      Reach(u, at, cs) == if Through(v, at, cs, f) then None else Reach(v, at, cs)
    decreases |cs|
  {
    if cs != [] {
      RemovedLookup(v, f, at, cs[0]);
      assert forall i: nat :: 0 < i <= |cs| ==> cs[..i][1..] == cs[1..][..i - 1] && cs[..i][0] == cs[0];
      var e := Enter(v, at, cs[0]);
      if e == Some(f) {
        assert Reach(v, at, cs[..1]) == Some(f);
      } else if e.Some? {
        RemovedReach(v, f, e.value, cs[1..]);
        if Through(v, e.value, cs[1..], f) {
          var i: nat :| 0 < i <= |cs[1..]| && Reach(v, e.value, cs[1..][..i]) == Some(f);
          assert Reach(v, at, cs[..i + 1]) == Some(f);
        }
        forall i: nat | 0 < i <= |cs| && Reach(v, at, cs[..i]) == Some(f)
          ensures Through(v, e.value, cs[1..], f)
        {
          assert cs[..1][1..] == [];
          assert Reach(v, e.value, cs[1..][..i - 1]) == Some(f);
        }
      }
    }
  }

  /** After a removal its path and every path below it open nothing, and the others what they did.  The
      root can be removed, too: it then is empty, but it opens. */
  lemma RemoveOpens(v: Volume, path: string, q: string)
    requires Tree(v) && Remove(v, path).1.Ok?
    ensures var (u, _) := Remove(v, path);
      && Tree(u)
      && Opens(u, q) == if Components(q) == [] then (if Components(path) == [] then Some(ROOT) else Opens(v, q))
                        else if Components(path) <= Components(q) then None else Opens(v, q)
  {
    if Components(path) == [] {
      RemovedKeeps(v, ROOT);
    } else {
      RemoveNamed(v, path, q);
    }
  }

  lemma RemoveNamed(v: Volume, path: string, q: string)
    requires Tree(v) && Components(path) != [] && Remove(v, path).1.Ok?
    ensures var (u, _) := Remove(v, path);
      && Tree(u)
      && Opens(u, q) == if Components(path) <= Components(q) then None else Opens(v, q)
  {
    var cs, qs, f := Components(path), Components(q), Remove(v, path).1.value;
    ComponentsAreNames(path);
    ComponentsAreNames(q);
    WalkIsReach(v, None, ROOT, cs);
    ReachLast(v, ROOT, cs);
    RemovedKeeps(v, f);
    RemovedReach(v, f, ROOT, qs);
    assert cs <= qs ==> qs[..|cs|] == cs;
    if Through(v, ROOT, qs, f) {
      var i: nat :| 0 < i <= |qs| && Reach(v, ROOT, qs[..i]) == Some(f);
      OnePath(v, qs[..i], cs);
    }
  }

  /** Removing what was just created restores every path. */
  lemma CreateThenRemove(v: Volume, path: string, grant: Option<nat>, q: string)
    requires Tree(v) && (grant.Some? ==> Zeroed(v, grant.value))
    requires Create(v, path, grant).1.Ok?
    ensures var u := Create(v, path, grant).0;
      Remove(u, path).1 == Create(v, path, grant).1 && Opens(Remove(u, path).0, q) == Opens(v, q)
  {
    var (u, r) := Create(v, path, grant);
    CreateOpens(v, path, grant, q);
    CreateOpens(v, path, grant, path);
    WalkIsReach(u, None, ROOT, Components(path));
    WalkIsReach(v, None, ROOT, Components(path));
    RemoveNamed(u, path, q);
    if Components(path) <= Components(q) {
      NothingBelow(v, Components(path), Components(q));
    }
  }

  lemma NothingBelow(v: Volume, a: seq<string>, b: seq<string>)
    requires a <= b && Reach(v, ROOT, a) == None
    ensures Reach(v, ROOT, b) == None
  {
    assert b == a + b[|a|..];
    ReachAppend(v, ROOT, a, b[|a|..]);
  }

  // ----- As it runs -----

  /** Skips the slashes from `i` on. */
  method SkipSlash(path: string, i: nat) returns (j: nat)
    requires i <= |path|
    ensures i <= j <= |path| && (j < |path| ==> path[j] != '/')
    ensures Components(path[j..]) == Components(path[i..])
  {
    j := i;
    while j < |path| && path[j] == '/'
      invariant i <= j <= |path| && Components(path[j..]) == Components(path[i..])
    {
      assert path[j..][1..] == path[j + 1..];
      j := j + 1;
    }
  }

  /** Where the component that starts at `p` ends. */
  method NameEnd(path: string, p: nat) returns (i: nat)
    requires p < |path| && path[p] != '/'
    ensures p < i <= |path| && Components(path[p..]) == [path[p..i]] + Components(path[i..])
  {
    i := p;
    while i < |path| && path[i] != '/'
      invariant p <= i <= |path| && (i == p ==> path[i] != '/')
      invariant forall k :: p <= k < i ==> path[k] != '/'
    {
      i := i + 1;
    }
    SpanIs(path[p..], i - p);
    assert path[p..][..i - p] == path[p..i] && path[p..][i - p..] == path[i..];
  }

  /** A structure of block `b` has the name. */
  predicate HasName(v: Volume, b: nat, name: string) {
    exists j: nat :: j < FILE2BLK && At(v, Place(b, j)).name == name
  }

  /** Looking for the name in the blocks from the `i`-th on, one is met for which file_get_block fails. */
  predicate Stuck(v: Volume, bad: set<nat>, d: Node, name: string, i: nat)
    requires i <= |d.blocks|
    decreases |d.blocks| - i
  {
    i < |d.blocks| &&
    (d.blocks[i] in bad || (!HasName(v, d.blocks[i], name) && Stuck(v, bad, d, name, i + 1)))
  }

  /** The walk meets one. */
  predicate WalkStuck(v: Volume, bad: set<nat>, file: nat, cs: seq<string>)
    decreases |cs|
  {
    cs != [] && |cs[0]| < MAXNAMELEN && At(v, file).dir &&
    (Stuck(v, bad, At(v, file), cs[0], 0)
     || (Lookup(v, file, cs[0]).Some? && WalkStuck(v, bad, Lookup(v, file, cs[0]).value, cs[1..])))
  }

  class Files {
    var v: Volume
    /** The blocks for which file_get_block fails. */
    const bad: set<nat>

    constructor (v0: Volume, bad0: set<nat>)
      ensures v == v0 && bad == bad0
    {
      v, bad := v0, bad0;
    }

    /** The first structure of that name; not `ok` is the error of file_get_block. */
    method DirLookup(d: nat, name: string) returns (r: Option<nat>, ok: bool)
      ensures ok <==> !Stuck(v, bad, At(v, d), name, 0)
      ensures ok ==> r == Lookup(v, d, name)
    {
      var n := At(v, d);
      var i := 0;
      while i < |n.blocks|
        invariant i <= |n.blocks| && Lookup(v, d, name) == FirstNamed(v, n, name, FILE2BLK * i)
        invariant Stuck(v, bad, n, name, 0) == Stuck(v, bad, n, name, i)
      {
        if n.blocks[i] in bad {
          return None, false;
        }
        r := BlockLookup(d, n.blocks[i], i, name);
        if r.Some? {
          return r, true;
        }
        i := i + 1;
      }
      return None, true;
    }

    /** The inner loop, over the structures of the `i`-th block. */
    method BlockLookup(d: nat, b: nat, i: nat, name: string) returns (r: Option<nat>)
      requires i < |At(v, d).blocks| && b == At(v, d).blocks[i]
      ensures r.Some? <==> HasName(v, b, name)
      ensures FirstNamed(v, At(v, d), name, FILE2BLK * i) ==
        if r.Some? then r else FirstNamed(v, At(v, d), name, FILE2BLK * (i + 1))
    {
      var j := 0;
      while j < FILE2BLK
        invariant j <= FILE2BLK && forall h: nat :: h < j ==> At(v, Place(b, h)).name != name
        invariant FirstNamed(v, At(v, d), name, FILE2BLK * i) == FirstNamed(v, At(v, d), name, FILE2BLK * i + j)
      {
        assert (FILE2BLK * i + j) / FILE2BLK == i && (FILE2BLK * i + j) % FILE2BLK == j;
        if At(v, Place(b, j)).name == name {
          return Some(Place(b, j));
        }
        j := j + 1;
      }
      return None;
    }

    /** None is an error: a block of the directory could not be had, or none for its growth. */
    method DirAllocFile(d: nat, grant: Option<nat>) returns (r: Option<nat>)
      modifies this
      ensures (v, r) == if Stuck(old(v), bad, At(old(v), d), "", 0) then (old(v), None) else AllocFile(old(v), d, grant)
    {
      var ok;
      r, ok := DirLookup(d, "");
      if !ok {
        return None;
      }
      if r.None? {
        v := v[d := At(v, d).(blocks := At(v, d).blocks + [if grant.Some? then grant.value else 0])];
        r := if grant.Some? then Some(Place(grant.value, 0)) else None;
      }
    }

    method Walk(path: string) returns (w: Walk, ok: bool)
      ensures ok <==> !WalkStuck(v, bad, ROOT, Components(path))
      ensures ok ==> w == WalkPath(v, path)
    {
      var i := SkipSlash(path, 0);
      assert path[0..] == path;
      var file: nat, parent: Option<nat> := ROOT, None;
      while i < |path|
        invariant i <= |path| && (i < |path| ==> path[i] != '/')
        invariant WalkPath(v, path) == WalkFrom(v, parent, file, Components(path[i..]))
        invariant WalkStuck(v, bad, ROOT, Components(path)) == WalkStuck(v, bad, file, Components(path[i..]))
        decreases |path| - i
      {
        var p := i;
        i := NameEnd(path, p);
        var name := path[p..i];
        if i - p >= MAXNAMELEN {
          return BadPath, true;
        }
        i := SkipSlash(path, i);
        if !At(v, file).dir {
          return NotFound, true;
        }
        var r, found := DirLookup(file, name);
        if !found {
          return NotFound, false;
        }
        if r.None? {
          return if i == |path| then Missing(file, name) else NotFound, true;
        }
        parent, file := Some(file), r.value;
      }
      return Found(parent, file), true;
    }

    /** An error of the walk is passed on; one of dir_alloc_file is told as E_NOT_FOUND. */
    method FileCreate(path: string, grant: Option<nat>) returns (r: Result<nat, Error>)
      modifies this
      ensures var was, w := old(v), WalkPath(old(v), path);
        if WalkStuck(was, bad, ROOT, Components(path)) then v == was && r == Err(E_READ)
        else if w.Missing? && Stuck(was, bad, At(was, w.dir), "", 0) then v == was && r == Err(E_NOT_FOUND)
        else (v, r) == Create(was, path, grant)
    {
      var w, ok := Walk(path);
      if !ok {
        return Err(E_READ);
      }
      match w {
        case Found(_, _) => return Err(E_FILE_EXISTS);
        case BadPath => return Err(E_BAD_PATH);
        case NotFound => return Err(E_NOT_FOUND);
        case Missing(d, name) =>
          var f := DirAllocFile(d, grant);
          if f.None? {
            return Err(E_NOT_FOUND);
          }
          v := v[f.value := At(v, f.value).(name := name)];
          return Ok(f.value);
      }
    }

    method FileRemove(path: string) returns (r: Result<nat, Error>)
      modifies this
      ensures (v, r) == if WalkStuck(old(v), bad, ROOT, Components(path)) then (old(v), Err(E_READ))
                        else Remove(old(v), path)
    {
      var w, ok := Walk(path);
      if !ok {
        return Err(E_READ);
      }
      if !w.Found? {
        return Err(if w.BadPath? then E_BAD_PATH else E_NOT_FOUND);
      }
      v := v[w.file := At(v, w.file).(name := "", blocks := [])];
      return Ok(w.file);
    }
  }
}
