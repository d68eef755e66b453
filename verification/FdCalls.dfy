/** close and dup (user/lib/fd.c) with pipe_close (user/lib/pipe.c), as the mapping calls they make one
    after the other on the caller's descriptors. */
module FdCalls {
  import opened PipeClose

  /** The calls of dup move one descriptor and no other. */
  lemma DupMoves(t: Local, dev: Dev, o: nat, n: nat)
    requires o != n && o in t.fd && o in t.data
    ensures After(t, DupCalls(t, dev, o, n)) == Local(t.fd[n := t.fd[o]], t.data[n := t.data[o]])
  {
    var u := if n in t.fd then After(t, CloseCalls(dev, n)) else t;
    if n in t.fd {
      CloseIs(t, dev, n);
      AfterBoth(t, CloseCalls(dev, n), [MapData(o, n), MapFd(o, n)]);
    } else {
      assert DupCalls(t, dev, o, n) == [MapData(o, n), MapFd(o, n)];
    }
    var w := Exec(u, MapData(o, n));
    assert [MapData(o, n), MapFd(o, n)][1..] == [MapFd(o, n)] && [MapFd(o, n)][1..] == [];
    assert After(w, [MapFd(o, n)]) == Exec(w, MapFd(o, n));
  }

  /** What the calls of close come to. */
  lemma CloseIs(t: Local, dev: Dev, n: nat)
    ensures After(t, CloseCalls(dev, n)) == Local(t.fd - {n}, if dev.ConsoleDev? then t.data else t.data - {n})
  {
    assert [UnmapFd(n), UnmapData(n), UnmapFd(n)][1..] == [UnmapData(n), UnmapFd(n)];
    assert [UnmapData(n), UnmapFd(n)][1..] == [UnmapFd(n)] && [UnmapFd(n)][1..] == [];
    var f := Exec(t, UnmapFd(n));
    var d := Exec(t, UnmapData(n));
    assert After(d, [UnmapFd(n)]) == Exec(d, UnmapFd(n));
    assert After(f, [UnmapData(n), UnmapFd(n)]) == After(Exec(f, UnmapData(n)), [UnmapFd(n)]);
    assert (t.fd - {n}) - {n} == t.fd - {n};
  }

  lemma {:induction false} AfterBoth(t: Local, a: seq<Call>, b: seq<Call>)
    ensures After(t, a + b) == After(After(t, a), b)
    decreases |a|
  {
    if a == [] {
      assert a + b == b;
    } else {
      assert (a + b)[1..] == a[1..] + b;
      AfterBoth(Exec(t, a[0]), a[1..], b);
    }
  }

  class Descriptors {
    var fd: map<nat, nat>
    var data: map<nat, nat>

    ghost function Table(): Local
      reads this
    {
      Local(fd, data)
    }

    /** dev_close and fd_close; the result is false for -E_INVAL. */
    method Close(n: nat, dev: Dev) returns (ok: bool)
      modifies this
      ensures ok <==> n in old(fd)
      ensures Table() == if ok then After(old(Table()), CloseCalls(dev, n)) else old(Table())
    {
      CloseIs(Table(), dev, n);
      if n !in fd {
        return false;
      }
      match dev {
        case PipeDev =>
          fd := fd - {n};
          data := data - {n};
        case FileDev =>
          data := data - {n};
        case ConsoleDev =>
      }
      fd := fd - {n};
      return true;
    }

    /** The error path of dup. */
    method Undo(n: nat)
      modifies this
      ensures fd == old(fd) - {n} && data == old(data) - {n}
      ensures Table() == After(old(Table()), UndoCalls(n))
    {
      ghost var t := Table();
      fd := fd - {n};
      data := data - {n};
      assert UndoCalls(n)[1..] == [UnmapData(n)] && [UnmapData(n)][1..] == [];
      assert After(Exec(t, UnmapFd(n)), [UnmapData(n)]) == Exec(Exec(t, UnmapFd(n)), UnmapData(n));
    }

    /** A descriptor with its data page is duplicated, unless it is duplicated to itself: then it is
        closed, and there is nothing left to map.  `mapData` and `mapFd` say whether there is memory for
        the calls of mem_map; without it the new number is left closed. */
    method Dup(o: nat, n: nat, dev: Dev, mapData: bool, mapFd: bool) returns (ok: bool)
      modifies this
      ensures ok <==> o in old(fd) && o != n && (o in old(data) ==> mapData) && mapFd
      ensures ok ==> Table() == After(old(Table()), DupCalls(old(Table()), dev, o, n))
      ensures ok && o in old(data) ==> fd == old(fd)[n := old(fd)[o]] && data == old(data)[n := old(data)[o]]
      ensures !ok && o in old(fd) ==> fd == old(fd) - {n} && data == old(data) - {n}
      ensures o !in old(fd) ==> Table() == old(Table())
    {
      if o !in fd {
        return false;
      }
      ghost var t := Table();
      CloseIs(t, dev, n);
      var closed := Close(n, dev);
      if o in data {
        if !mapData {
          Undo(n);
          return false;
        }
        data := data[n := data[o]];
      }
      if o !in fd || !mapFd {
        Undo(n);
        return false;
      }
      fd := fd[n := fd[o]];
      if o in t.data {
        DupMoves(t, dev, o, n);
      } else {
        AfterBoth(t, if n in t.fd then CloseCalls(dev, n) else [], [MapData(o, n), MapFd(o, n)]);
        assert [MapData(o, n), MapFd(o, n)][1..] == [MapFd(o, n)] && [MapFd(o, n)][1..] == [];
        ghost var u := if n in t.fd then After(t, CloseCalls(dev, n)) else t;
        assert After(Exec(u, MapData(o, n)), [MapFd(o, n)]) == Exec(Exec(u, MapData(o, n)), MapFd(o, n));
      }
      return true;
    }
  }
}
