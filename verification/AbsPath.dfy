/** format_abspath and relpath2abspath (user/lib/file.c): a path without ".", ".." or spare slashes. */
module AbsPath {
  import opened PathNames

  /** What the components left do to the stack of names. */
  function Fold(stack: seq<string>, cs: seq<string>): seq<string>
    decreases |cs|
  {
    if cs == [] then stack
    else if cs[0] == "." then Fold(stack, cs[1..])
    else if cs[0] == ".." then Fold(if stack == [] then [] else stack[..|stack| - 1], cs[1..])
    else Fold(stack + [cs[0]], cs[1..])
  }

  /** The same as the code does it: at the root ".." looks at buf[1], and if a slash was left there
      (`slash`) it makes an empty name.  The first name pushed overwrites it. */
  function Exact(slash: bool, stack: seq<string>, cs: seq<string>): seq<string>
    decreases |cs|
  {
    if cs == [] then stack
    else if cs[0] == "." then Exact(slash, stack, cs[1..])
    else if cs[0] == ".." then
      Exact(slash, if stack != [] then stack[..|stack| - 1] else if slash then [""] else [], cs[1..])
    else Exact(slash && stack != [], stack + [cs[0]], cs[1..])
  }

  /** The buffer before its end is cut: a slash, and one after each name. */
  function Text(stack: seq<string>): (t: string)
    ensures t != "" && t[0] == '/' && t[|t| - 1] == '/' && (stack != [] ==> |t| > 1)
  {
    if stack == [] then "/" else Text(stack[..|stack| - 1]) + stack[|stack| - 1] + "/"
  }

  function Show(stack: seq<string>): string {
    if stack == [] then "/" else Text(stack)[..|Text(stack)| - 1]
  }

  function Canonical(path: string): string { Show(Fold([], Components(path))) }

  /** relpath2abspath. */
  function Absolute(cwd: string, path: string): string {
    if path == "" || path[0] != '/' then cwd + "/" + path else path
  }

  predicate Plain(cs: seq<string>) {
    AreNames(cs) && forall i :: 0 <= i < |cs| ==> cs[i] != "." && cs[i] != ".."
  }

  // ----- What the formatted path means -----

  lemma {:induction false} FoldIsPlain(stack: seq<string>, cs: seq<string>)
    requires Plain(stack) && AreNames(cs)
    ensures Plain(Fold(stack, cs))
    decreases |cs|
  {
    if cs != [] {
      var s := if cs[0] == "." then stack
               else if cs[0] == ".." then (if stack == [] then [] else stack[..|stack| - 1])
               else stack + [cs[0]];
      FoldIsPlain(s, cs[1..]);
    }
  }

  lemma {:induction false} FoldPlain(stack: seq<string>, cs: seq<string>)
    requires Plain(cs)
    ensures Fold(stack, cs) == stack + cs
    decreases |cs|
  {
    if cs != [] {
      FoldPlain(stack + [cs[0]], cs[1..]);
    }
  }

  lemma {:induction false} FoldAppend(stack: seq<string>, a: seq<string>, b: seq<string>)
    ensures Fold(stack, a + b) == Fold(Fold(stack, a), b)
    decreases |a|
  {
    if a == [] {
      assert a + b == b;
    } else {
      assert (a + b)[1..] == a[1..] + b;
      var s := if a[0] == "." then stack
               else if a[0] == ".." then (if stack == [] then [] else stack[..|stack| - 1])
               else stack + [a[0]];
      FoldAppend(s, a[1..], b);
    }
  }

  lemma {:induction false} JoinAppend(a: seq<string>, c: string)
    ensures Join(a + [c]) == Join(a) + "/" + c
  {
    if a != [] {
      assert (a + [c])[1..] == a[1..] + [c];
      JoinAppend(a[1..], c);
    }
  }

  lemma {:induction false} TextIsJoin(stack: seq<string>)
    ensures Text(stack) == Join(stack) + "/"
  {
    if stack != [] {
      var n := |stack| - 1;
      TextIsJoin(stack[..n]);
      assert stack == stack[..n] + [stack[n]];
      JoinAppend(stack[..n], stack[n]);
    }
  }

  lemma ShowSplits(stack: seq<string>)
    requires AreNames(stack)
    ensures Components(Show(stack)) == stack && Show(stack) == if stack == [] then "/" else Join(stack)
  {
    TextIsJoin(stack);
    SplitJoin(stack);
    SlashSeparates("", "");
  }

  /** The formatted path has exactly the names of the fold, none of them ".", ".." or empty, and no
      other slash than the one before each name, or the root's. */
  lemma CanonicalIsPlain(path: string)
    ensures var cs := Components(Canonical(path));
      && cs == Fold([], Components(path)) && Plain(cs)
      && Canonical(path) == if cs == [] then "/" else Join(cs)
  {
    ComponentsAreNames(path);
    FoldIsPlain([], Components(path));
    ShowSplits(Fold([], Components(path)));
  }

  /** Formatting twice changes nothing. */
  lemma Idempotent(path: string)
    ensures Canonical(Canonical(path)) == Canonical(path)
  {
    var s := Fold([], Components(path));
    ComponentsAreNames(path);
    FoldIsPlain([], Components(path));
    ShowSplits(s);
    FoldPlain([], s);
    assert [] + s == s;
  }

  /** A component that changes no stack, or two that undo each other, may be left out. */
  lemma LeaveOut(a: string, mid: string, b: string)
    requires var s := Fold([], Components(a)); Fold(s, Components(mid)) == s
    ensures Canonical(a + "/" + (mid + "/" + b)) == Canonical(a + "/" + b)
  {
    var ca, cm, cb := Components(a), Components(mid), Components(b);
    SlashSeparates(mid, b);
    SlashSeparates(a, mid + "/" + b);
    SlashSeparates(a, b);
    FoldAppend([], ca, cm + cb);
    FoldAppend([], ca, cb);
    FoldAppend(Fold([], ca), cm, cb);
  }

  lemma OneName(x: string)
    requires IsName(x)
    ensures Components(x) == [x]
  {
    SplitFirst(x, "");
    assert x + "" == x;
  }

  /** ".." undoes the name before it. */
  lemma DotDotUndoes(a: string, x: string, b: string)
    requires IsName(x) && x != "." && x != ".."
    ensures Canonical(a + "/" + ((x + "/" + "..") + "/" + b)) == Canonical(a + "/" + b)
  {
    OneName(x);
    OneName("..");
    SlashSeparates(x, "..");
    var s := Fold([], Components(a));
    assert ([x] + [".."])[1..] == [".."] && (s + [x])[..|s|] == s;
    assert Fold(s + [x], [".."]) == s;
    LeaveOut(a, x + "/" + "..", b);
  }

  /** "." and doubled slashes do nothing, and ".." does nothing at the root. */
  lemma NothingToDo(a: string, mid: string, b: string)
    requires mid == "" || mid == "." || (mid == ".." && Components(Canonical(a)) == [])
    ensures Canonical(a + "/" + (mid + "/" + b)) == Canonical(a + "/" + b)
  {
    if mid != "" {
      OneName(mid);
    }
    CanonicalIsPlain(a);
    LeaveOut(a, mid, b);
  }

  /** A relative path is taken from the working directory. */
  lemma AbsoluteIsRelative(cwd: string, path: string)
    ensures Canonical(Absolute(cwd, path)) ==
      Show(Fold(if path != "" && path[0] == '/' then [] else Fold([], Components(cwd)), Components(path)))
  {
    SlashSeparates(cwd, path);
    FoldAppend([], Components(cwd), Components(path));
  }

  // ----- A slash left in the buffer -----

  lemma {:induction false} ExactIsFold(slash: bool, stack: seq<string>, spare: bool, cs: seq<string>)
    requires AreNames(cs)
    ensures var e, s := Exact(slash, if spare then [""] + stack else stack, cs), Fold(stack, cs);
      (e == s || e == [""] + s) && (!slash && !spare ==> e == s)
    decreases |cs|
  {
    if cs != [] {
      var c, n, x := cs[0], |stack| - 1, if spare then [""] + stack else stack;
      if c == "." {
        ExactIsFold(slash, stack, spare, cs[1..]);
      } else if c != ".." {
        assert x + [c] == if spare then [""] + (stack + [c]) else stack + [c];
        ExactIsFold(slash && x != [], stack + [c], spare, cs[1..]);
      } else if stack == [] {
        assert x != [] ==> x[..|x| - 1] == [];
        assert [""] + stack == [""];
        ExactIsFold(slash, stack, !spare && slash, cs[1..]);
      } else {
        assert x[..|x| - 1] == if spare then [""] + stack[..n] else stack[..n];
        ExactIsFold(slash, stack[..n], spare, cs[1..]);
      }
    }
  }

  lemma SpareSlash(s: seq<string>)
    requires AreNames(s)
    ensures Components(Show([""] + s)) == s
  {
    var x := [""] + s;
    TextIsJoin(x);
    assert x[1..] == s && x[0] == "";
    assert Join(x) == "/" + Join(s);
    SlashSeparates("", Join(s));
    SplitJoin(s);
  }

  /** Whatever the buffer held, the names in the result are right. */
  lemma NamesAreRight(slash: bool, path: string)
    ensures Components(Show(Exact(slash, [], Components(path)))) == Fold([], Components(path))
  {
    var cs := Components(path);
    ComponentsAreNames(path);
    ExactIsFold(slash, [], false, cs);
    FoldIsPlain([], cs);
    ShowSplits(Fold([], cs));
    SpareSlash(Fold([], cs));
  }

  /** Whether an empty name is left at the root in the end: with `depth` names above it, ".." at the root
      puts one there, or takes it away; a name put at the root while there is none ends that. */
  function Spare(depth: nat, odd: bool, cs: seq<string>): bool
    decreases |cs|
  {
    if cs == [] then odd
    else if cs[0] == "." then Spare(depth, odd, cs[1..])
    else if cs[0] == ".." then (if depth > 0 then Spare(depth - 1, odd, cs[1..]) else Spare(0, !odd, cs[1..]))
    else (depth > 0 || odd) && Spare(depth + 1, odd, cs[1..])
  }

  /** With a slash left in the buffer the stack is off by that one name, and by nothing else. */
  lemma {:induction false} ExactIsSpared(stack: seq<string>, odd: bool, cs: seq<string>)
    requires AreNames(cs) && (odd || stack == [])
    ensures var s := Fold(stack, cs);
      Exact(true, if odd then [""] + stack else stack, cs) == if Spare(|stack|, odd, cs) then [""] + s else s
    decreases |cs|
  {
    if cs != [] {
      var c, n, x := cs[0], |stack| - 1, if odd then [""] + stack else stack;
      if c == "." {
        ExactIsSpared(stack, odd, cs[1..]);
      } else if c != ".." {
        assert x + [c] == if odd then [""] + (stack + [c]) else stack + [c];
        if odd {
          ExactIsSpared(stack + [c], true, cs[1..]);
        } else {
          assert x == [] && stack + [c] == [c];
          ExactIsFold(false, [c], false, cs[1..]);
        }
      } else if stack == [] {
        assert x != [] ==> x[..|x| - 1] == [];
        assert [""] + stack == [""];
        ExactIsSpared([], !odd, cs[1..]);
      } else {
        assert x[..|x| - 1] == [""] + stack[..n];
        ExactIsSpared(stack[..n], true, cs[1..]);
      }
    }
  }

  lemma SpareShows(s: seq<string>)
    requires AreNames(s)
    ensures Show([""] + s) == Show(s) <==> s == []
  {
    var x := [""] + s;
    TextIsJoin(x);
    TextIsJoin(s);
    assert x[1..] == s && x[0] == "";
    assert Join(x) == "/" + Join(s);
    if s == [] {
      assert Show(x) == "/";
    }
  }

  /** The result is the formatted path iff buf[1] was not a slash, or no spare name is left at the root,
      or nothing but the root is left. */
  lemma FormatIff(slash: bool, path: string)
    ensures var cs := Components(path);
      Show(Exact(slash, [], cs)) == Canonical(path) <==> !slash || !Spare(0, false, cs) || Fold([], cs) == []
  {
    var cs := Components(path);
    ComponentsAreNames(path);
    FoldIsPlain([], cs);
    if slash {
      ExactIsSpared([], false, cs);
      SpareShows(Fold([], cs));
    } else {
      ExactIsFold(false, [], false, cs);
    }
  }

  /** In particular a path whose first component is a name is always formatted right. */
  lemma NameFirst(slash: bool, path: string)
    requires var cs := Components(path); cs != [] && cs[0] != "." && cs[0] != ".."
    ensures Show(Exact(slash, [], Components(path))) == Canonical(path)
  {
    FormatIff(slash, path);
  }

  // ----- As it runs -----

  predicate CString(s: seq<char>) { '\0' !in s }

  /** The string at the head of the buffer. */
  function Prefix(s: seq<char>): seq<char> {
    if s == [] || s[0] == '\0' then [] else [s[0]] + Prefix(s[1..])
  }

  lemma {:induction false} PrefixIs(s: seq<char>, n: nat)
    requires n < |s| && s[n] == '\0' && CString(s[..n])
    ensures Prefix(s) == s[..n]
  {
    if n > 0 {
      assert s[0] == s[..n][0] && s[1..][..n - 1] == s[..n][1..];
      PrefixIs(s[1..], n - 1);
    }
  }

  predicate Clean(stack: seq<string>) { forall i :: 0 <= i < |stack| ==> '/' !in stack[i] && CString(stack[i]) }

  lemma {:induction false} TextIsCString(stack: seq<string>)
    requires Clean(stack)
    ensures CString(Text(stack))
  {
    if stack != [] {
      TextIsCString(stack[..|stack| - 1]);
    }
  }

  /** strcpy of the name and the slash behind it. */
  method Append(buf: array<char>, q: nat, name: string) returns (r: nat)
    requires 1 <= q && q + |name| < buf.Length
    modifies buf
    ensures r == q + |name| + 1 && buf[..r] == old(buf[..q]) + name + "/"
  {
    var k := 0;
    while k < |name|
      invariant k <= |name| && buf[..q + k] == old(buf[..q]) + name[..k]
    {
      buf[q + k] := name[k];
      k := k + 1;
    }
    buf[q + k] := '/';
    r := q + k + 1;
  }

  /** Back to just behind the slash before the last name. */
  method Back(buf: array<char>, q: nat, ghost stack: seq<string>) returns (r: nat)
    requires q < buf.Length && buf[..q] == Text(stack) && Clean(stack)
    ensures var s := if stack != [] then stack[..|stack| - 1] else if buf[1] == '/' then [""] else [];
      1 <= r <= buf.Length && (r <= q || r == 2) && buf[..r] == Text(s)
  {
    r := if q == 1 then q else q - 2;
    ghost var n := |stack| - 1;
    ghost var low := if stack == [] then (if buf[1] == '/' then 1 else 0) else |Text(stack[..n])| - 1;
    assert forall k :: 0 <= k < q ==> buf[k] == buf[..q][k];
    assert stack != [] ==>
      forall k :: 0 <= k < |stack[n]| ==> buf[low + 1 + k] == stack[n][k] && stack[n][k] in stack[n];
    while buf[r] != '/'
      invariant low <= r < buf.Length && buf[low] == '/'
      invariant stack != [] ==> r <= low + |stack[n]|
      invariant stack == [] ==> r <= 1
      decreases r
    {
      r := r - 1;
    }
    r := r + 1;
  }

  /** The end of the component at `p`, and the start of the next. */
  method Next(path: string, p: nat) returns (e: nat, i: nat)
    requires p < |path|
    ensures p <= e <= i <= |path| && (e == p ==> path[p] == '/') && '/' !in path[p..e] && (i < |path| ==> e < i)
    ensures p < i && Components(path[p..]) == (if e == p then [] else [path[p..e]]) + Components(path[i..])
  {
    e := p;
    while e < |path| && path[e] != '/'
      invariant p <= e <= |path| && forall k :: p <= k < e ==> path[k] != '/'
    {
      e := e + 1;
    }
    SpanIs(path[p..], e - p);
    assert path[p..][..e - p] == path[p..e] && path[p..][e - p..] == path[e..];
    i := e;
    while i < |path| && path[i] == '/'
      invariant e <= i <= |path| && Components(path[i..]) == Components(path[e..])
      invariant e < |path| ==> path[e] == '/'
    {
      assert path[i..][1..] == path[i + 1..];
      i := i + 1;
    }
  }

  /** One component of the path. */
  method Round(buf: array<char>, name: string, q: nat, ghost stack: seq<string>) returns (r: nat, ghost s: seq<string>)
    requires 1 <= q && q + |name| < buf.Length && '/' !in name && CString(name)
    requires buf[..q] == Text(stack) && Clean(stack)
    modifies buf
    ensures 1 <= r <= buf.Length && (r <= q + |name| + 1) && (name == "" ==> r == q)
    ensures buf[..r] == Text(s) && Clean(s)
    ensures s == if name == "" then stack else Exact(old(buf[1] == '/'), stack, [name])
    ensures buf[1] == '/' <==> old(buf[1] == '/') && (name in ["", ".", ".."] || stack != [])
  {
    s := stack;
    r := q;
    ExactOne(buf[1] == '/', stack, name);
    if name == ".." {
      s := if stack != [] then stack[..|stack| - 1] else if buf[1] == '/' then [""] else [];
      r := Back(buf, q, stack);
    } else if name != "" && name != "." {
      r := Append(buf, q, name);
      s := stack + [name];
      AppendKeepsSlash(stack, name, q, old(buf[..]), buf[..], r);
    }
  }

  lemma ExactOne(slash: bool, stack: seq<string>, name: string)
    ensures Exact(slash, stack, [name]) ==
      if name == "." then stack
      else if name == ".." then (if stack != [] then stack[..|stack| - 1] else if slash then [""] else [])
      else stack + [name]
  {
  }

  /** What is left to do once `name` is dealt with. */
  lemma ExactStep(slash: bool, stack: seq<string>, name: string, cs: seq<string>, rest: seq<string>)
    requires cs == (if name == "" then [] else [name]) + rest
    ensures Exact(slash, stack, cs) ==
      Exact(slash && (name in ["", ".", ".."] || stack != []),
            if name == "" then stack else Exact(slash, stack, [name]), rest)
  {
    if name == "" {
      assert cs == rest;
    } else {
      assert cs[1..] == rest;
    }
  }

  lemma AppendKeepsSlash(stack: seq<string>, name: string, q: nat, was: string, now: string, r: nat)
    requires 1 <= q < |was| && was[..q] == Text(stack) && IsName(name)
    requires |now| == |was| && r == q + |name| + 1 <= |now| && now[..r] == was[..q] + name + "/"
    ensures now[..r] == Text(stack + [name])
    ensures now[1] == '/' <==> was[1] == '/' && stack != []
  {
    assert (stack + [name])[..|stack|] == stack;
    assert stack != [] <==> q > 1;
    if q > 1 {
      assert now[1] == now[..r][1] == was[..q][1];
    } else {
      assert now[1] == now[..r][1] == name[0];
    }
  }

  /** The buffer takes the whole path and its NUL; a component fits `name`. */
  method FormatAbspath(buf: array<char>, path: string)
    requires path != "" && path[0] == '/' && CString(path) && |path| < buf.Length
    requires forall i :: 0 <= i < |Components(path)| ==> |Components(path)[i]| < MAXNAMELEN
    modifies buf
    ensures Prefix(buf[..]) == Show(Exact(old(buf[1] == '/'), [], Components(path)))
    ensures |Prefix(buf[..])| <= |path|
  {
    buf[0] := '/';
    var q, i := 1, 1;
    ghost var stack: seq<string> := [];
    ghost var want := Exact(buf[1] == '/', [], Components(path));
    while i < |path|
      invariant 1 <= q <= i + 1 && i <= |path| && (i < |path| ==> q <= i)
      invariant buf[..q] == Text(stack) && Clean(stack)
      invariant Exact(buf[1] == '/', stack, Components(path[i..])) == want
      decreases |path| - i
    {
      var e, n := Next(path, i);
      var name := path[i..e];
      assert CString(name);
      ExactStep(buf[1] == '/', stack, name, Components(path[i..]), Components(path[n..]));
      q, stack := Round(buf, name, q, stack);
      i := n;
    }
    Cut(buf, q, stack);
  }

  method Cut(buf: array<char>, q: nat, ghost stack: seq<string>)
    requires 1 <= q <= buf.Length && 1 < buf.Length && buf[..q] == Text(stack) && Clean(stack)
    modifies buf
    ensures Prefix(buf[..]) == Show(stack) && |Prefix(buf[..])| <= if q > 1 then q - 1 else 1
  {
    TextIsCString(stack);
    ghost var t := Text(stack);
    var n := if q > 1 then q - 1 else q;
    buf[n] := '\0';
    assert buf[..n] == t[..n];
    PrefixIs(buf[..], n);
  }
}
