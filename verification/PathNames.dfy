/** The slash-separated parts of a path, as walk_path (fs/fs.c) and format_abspath (user/lib/file.c)
    find them. */
module PathNames {
  const MAXNAMELEN := 128

  /** How far the component at the head of `s` runs. */
  function Span(s: string): (n: nat)
    ensures n <= |s| && (forall i :: 0 <= i < n ==> s[i] != '/') && (n < |s| ==> s[n] == '/')
  {
    if s == "" || s[0] == '/' then 0 else 1 + Span(s[1..])
  }

  function Components(s: string): seq<string>
    decreases |s|
  {
    if s == "" then []
    else if s[0] == '/' then Components(s[1..])
    else [s[..Span(s)]] + Components(s[Span(s)..])
  }

  predicate IsName(n: string) { n != "" && '/' !in n }

  predicate AreNames(cs: seq<string>) { forall i :: 0 <= i < |cs| ==> IsName(cs[i]) }

  /** Each name behind a slash of its own. */
  function Join(cs: seq<string>): string
  {
    if cs == [] then "" else "/" + (cs[0] + Join(cs[1..]))
  }

  lemma SpanIs(s: string, n: nat)
    requires n <= |s| && (forall i :: 0 <= i < n ==> s[i] != '/') && (n < |s| ==> s[n] == '/')
    ensures Span(s) == n
  {
    if s != "" && s[0] != '/' {
      SpanIs(s[1..], n - 1);
    }
  }

  lemma {:induction false} ComponentsAreNames(s: string)
    ensures AreNames(Components(s))
    decreases |s|
  {
    if s != "" {
      if s[0] == '/' {
        ComponentsAreNames(s[1..]);
      } else {
        ComponentsAreNames(s[Span(s)..]);
      }
    }
  }

  /** A slash separates, and only that: doubled, leading and trailing slashes change nothing. */
  lemma {:induction false} SlashSeparates(a: string, b: string)
    ensures Components(a + "/" + b) == Components(a) + Components(b)
    decreases |a|
  {
    var s := a + "/" + b;
    if a == "" {
      assert s[1..] == b;
    } else if a[0] == '/' {
      assert s[1..] == a[1..] + "/" + b;
      SlashSeparates(a[1..], b);
    } else {
      var n := Span(a);
      SpanIs(s, n);
      assert s[..n] == a[..n] && s[n..] == a[n..] + "/" + b;
      SlashSeparates(a[n..], b);
    }
  }

  /** Splitting undoes joining, with any slashes after. */
  lemma {:induction false} SplitJoin(cs: seq<string>)
    requires AreNames(cs)
    ensures Components(Join(cs)) == cs
  {
    if cs != [] {
      var rest := Join(cs[1..]);
      SplitJoin(cs[1..]);
      SplitFirst(cs[0], rest);
      SlashSeparates("", cs[0] + rest);
    }
  }

  lemma SplitFirst(c: string, rest: string)
    requires IsName(c) && (rest != "" ==> rest[0] == '/')
    ensures Components(c + rest) == [c] + Components(rest)
  {
    var s := c + rest;
    assert forall i :: 0 <= i < |c| ==> s[i] == c[i] && c[i] in c;
    SpanIs(s, |c|);
    assert s[..|c|] == c && s[|c|..] == rest;
  }
}
