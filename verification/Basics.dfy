/** What several modules share: optional values, and sequences as lists without repetition. */
module Basics {
  datatype Option<+T> = None | Some(value: T)

  datatype Result<+T, +E> = Ok(value: T) | Err(error: E)

  predicate NoDup<T(==)>(s: seq<T>) {
    forall i, j :: 0 <= i < j < |s| ==> s[i] != s[j]
  }

  /** The first place of `e`. */
  function Index<T(==)>(s: seq<T>, e: T): (k: nat)
    requires e in s
    ensures k < |s| && s[k] == e && e !in s[..k]
  {
    if s[0] == e then 0 else 1 + Index(s[1..], e)
  }

  /** The list after `e` is unlinked. */
  function Without<T(==)>(s: seq<T>, e: T): seq<T> {
    if e in s then var k := Index(s, e); s[..k] + s[k + 1..] else s
  }

  /** In a list without repetitions that removes exactly `e`. */
  lemma WithoutIs<T>(s: seq<T>, e: T)
    requires NoDup(s)
    ensures NoDup(Without(s, e))
    ensures forall x :: x in Without(s, e) <==> x in s && x != e
  {
    if e in s {
      var k := Index(s, e);
      assert s == s[..k] + [e] + s[k + 1..];
    }
  }
}
