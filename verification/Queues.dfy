/** The intrusive lists and tail queues of include/queue.h.  An element links to the next one and,
    backwards, to the pointer that points at it: a list head's or an element's own. */
module Queues {
  import opened Basics

  datatype Ptr = Null | At(e: nat)

  /** The address of a pointer. */
  datatype Loc = First(h: nat) | NextOf(e: nat)

  /** For each head its first element, and for a TAILQ the address of the last next pointer; for each
      element its links. */
  datatype Heap = Heap(first: seq<Ptr>, last: seq<Loc>, next: seq<Ptr>, prev: seq<Loc>)

  /** What points at place `i` of the list. */
  function LocOf(h: nat, s: seq<nat>, i: nat): Loc
    requires i <= |s|
  {
    if i == 0 then First(h) else NextOf(s[i - 1])
  }

  function PtrTo(s: seq<nat>, i: nat): Ptr {
    if i < |s| then At(s[i]) else Null
  }

  /** Element `i` of the list is linked both ways. */
  predicate Linked(m: Heap, h: nat, s: seq<nat>, i: nat)
    requires i < |s|
  {
    && s[i] < |m.next| && s[i] < |m.prev|
    && m.next[s[i]] == PtrTo(s, i + 1) && m.prev[s[i]] == LocOf(h, s, i)
  }

  /** The links of head `h` spell out `s`, forwards and backwards; a TAILQ also knows its end. */
  ghost predicate Spells(m: Heap, h: nat, s: seq<nat>, tail: bool) {
    && h < |m.first| && h < |m.last| && m.first[h] == PtrTo(s, 0)
    && (forall i: nat :: i < |s| ==> Linked(m, h, s, i))
    && (tail ==> m.last[h] == LocOf(h, s, |s|))
  }

  /** Every head spells its list. */
  ghost predicate Holds(m: Heap, lists: seq<seq<nat>>, tails: set<nat>) {
    && |m.next| == |m.prev| && |m.first| == |m.last| == |lists|
    && (forall h: nat :: h < |lists| ==> Spells(m, h, lists[h], h in tails))
  }

  /** Back links keep lists apart: no element occurs twice, in one list or in two. */
  lemma {:induction false} Apart(m: Heap, lists: seq<seq<nat>>, tails: set<nat>, h: nat, i: nat, g: nat, j: nat)
    requires Holds(m, lists, tails) && h < |lists| && g < |lists| && i < |lists[h]| && j < |lists[g]|
    requires lists[h][i] == lists[g][j]
    ensures h == g && i == j
  {
    assert Spells(m, h, lists[h], h in tails) && Spells(m, g, lists[g], g in tails);
    assert Linked(m, h, lists[h], i) && Linked(m, g, lists[g], j);
    if i > 0 && j > 0 {
      Apart(m, lists, tails, h, i - 1, g, j - 1);
    }
  }

  /** The forward links alone determine the list. */
  lemma {:induction false} OneReading(m: Heap, h: nat, s: seq<nat>, t: seq<nat>, n: nat)
    requires Spells(m, h, s, false) && Spells(m, h, t, false) && n <= |s|
    ensures n <= |t| && s[..n] == t[..n] && PtrTo(s, n) == PtrTo(t, n)
  {
    if n > 0 {
      OneReading(m, h, s, t, n - 1);
      assert Linked(m, h, s, n - 1) && Linked(m, h, t, n - 1);
    }
  }

  // ----- The macros -----

  predicate PtrOk(m: Heap, p: Ptr) { p == Null || p.e < |m.next| }

  predicate LocOk(m: Heap, q: Loc) {
    match q case First(h) => h < |m.first| case NextOf(e) => e < |m.next|
  }

  /** Every pointer points somewhere. */
  ghost predicate InRange(m: Heap) {
    && |m.next| == |m.prev| && |m.first| == |m.last|
    && (forall h: nat :: h < |m.first| ==> PtrOk(m, m.first[h]))
    && (forall h: nat :: h < |m.last| ==> LocOk(m, m.last[h]))
    && (forall e: nat :: e < |m.next| ==> PtrOk(m, m.next[e]))
    && (forall e: nat :: e < |m.prev| ==> LocOk(m, m.prev[e]))
  }

  /** `*p = q`. */
  function Store(m: Heap, p: Loc, q: Ptr): Heap
    requires LocOk(m, p)
  {
    match p
    case First(h) => m.(first := m.first[h := q])
    case NextOf(e) => m.(next := m.next[e := q])
  }

  function ListInsertHeadTo(m: Heap, h: nat, e: nat): (u: Heap)
    requires InRange(m) && h < |m.first| && e < |m.next|
    ensures InRange(u) && |u.first| == |m.first| && |u.next| == |m.next|
  {
    var p := m.first[h];
    var prev := if p != Null then m.prev[p.e := NextOf(e)] else m.prev;
    Heap(m.first[h := At(e)], m.last, m.next[e := p], prev[e := First(h)])
  }

  function TailInsertHeadTo(m: Heap, h: nat, e: nat): (u: Heap)
    requires InRange(m) && h < |m.first| && e < |m.next|
    ensures InRange(u) && |u.first| == |m.first| && |u.next| == |m.next|
  {
    var last := if m.first[h] == Null then m.last[h := NextOf(e)] else m.last;
    ListInsertHeadTo(m, h, e).(last := last)
  }

  function TailInsertTailTo(m: Heap, h: nat, e: nat): (u: Heap)
    requires InRange(m) && h < |m.first| && e < |m.next|
    ensures InRange(u) && |u.first| == |m.first| && |u.next| == |m.next|
  {
    var l := m.last[h];
    var u := m.(next := m.next[e := Null], prev := m.prev[e := l]);
    Store(u, l, At(e)).(last := m.last[h := NextOf(e)])
  }

  function ListRemoveFrom(m: Heap, e: nat): (u: Heap)
    requires InRange(m) && e < |m.next|
    ensures InRange(u) && |u.first| == |m.first| && |u.next| == |m.next|
  {
    var p := m.next[e];
    var u := if p != Null then m.(prev := m.prev[p.e := m.prev[e]]) else m;
    Store(u, u.prev[e], p)
  }

  function TailRemoveFrom(m: Heap, h: nat, e: nat): (u: Heap)
    requires InRange(m) && h < |m.first| && e < |m.next|
    ensures InRange(u) && |u.first| == |m.first| && |u.next| == |m.next|
  {
    if m.next[e] == Null then ListRemoveFrom(m.(last := m.last[h := m.prev[e]]), e) else ListRemoveFrom(m, e)
  }

  datatype Op =
    | ListInsertHead(h: nat, e: nat)
    | ListRemove(e: nat)
    | TailInsertHead(h: nat, e: nat)
    | TailInsertTail(h: nat, e: nat)
    | TailRemove(h: nat, e: nat)

  /** What the operation should do to the lists. */
  function Effect(lists: seq<seq<nat>>, op: Op): (r: seq<seq<nat>>)
    ensures |r| == |lists|
  {
    match op
    case ListInsertHead(h, e) => if h < |lists| then lists[h := [e] + lists[h]] else lists
    case TailInsertHead(h, e) => if h < |lists| then lists[h := [e] + lists[h]] else lists
    case TailInsertTail(h, e) => if h < |lists| then lists[h := lists[h] + [e]] else lists
    case ListRemove(e) => seq(|lists|, g requires 0 <= g < |lists| => Without(lists[g], e))
    case TailRemove(h, e) => if h < |lists| then lists[h := Without(lists[h], e)] else lists
  }

  /** An inserted element is in no list, a removed one is in a list of the right kind. */
  ghost predicate Allowed(n: nat, lists: seq<seq<nat>>, tails: set<nat>, op: Op) {
    match op
    case ListInsertHead(h, e) => h < |lists| && h !in tails && e < n && Unlinked(lists, e)
    case TailInsertHead(h, e) => h < |lists| && h in tails && e < n && Unlinked(lists, e)
    case TailInsertTail(h, e) => h < |lists| && h in tails && e < n && Unlinked(lists, e)
    case ListRemove(e) => exists h: nat :: h < |lists| && h !in tails && e in lists[h]
    case TailRemove(h, e) => h < |lists| && h in tails && e in lists[h]
  }

  predicate Unlinked(lists: seq<seq<nat>>, e: nat) { forall g: nat :: g < |lists| ==> e !in lists[g] }

  // ----- Each keeps the links -----

  /** Stores that miss a list leave it as it is. */
  lemma Misses(m: Heap, u: Heap, h: nat, s: seq<nat>, tail: bool)
    requires Spells(m, h, s, tail) && |u.first| == |m.first| && |u.last| == |m.last|
    requires |u.next| == |m.next| && |u.prev| == |m.prev|
    requires u.first[h] == m.first[h] && (tail ==> u.last[h] == m.last[h])
    requires forall i: nat :: i < |s| ==>
      s[i] < |m.next| && s[i] < |m.prev| && u.next[s[i]] == m.next[s[i]] && u.prev[s[i]] == m.prev[s[i]]
    ensures Spells(u, h, s, tail)
  {
    forall i: nat | i < |s| ensures Linked(u, h, s, i) {
      assert Linked(m, h, s, i);
    }
  }

  predicate Valid(m: Heap, op: Op) {
    match op
    case ListRemove(e) => e < |m.next|
    case TailRemove(h, e) => h < |m.first| && e < |m.next|
    case _ => op.h < |m.first| && op.e < |m.next|
  }

  function Do(m: Heap, op: Op): (u: Heap)
    requires InRange(m) && Valid(m, op)
    ensures InRange(u) && |u.first| == |m.first| && |u.next| == |m.next|
  {
    match op
    case ListInsertHead(h, e) => ListInsertHeadTo(m, h, e)
    case TailInsertHead(h, e) => TailInsertHeadTo(m, h, e)
    case TailInsertTail(h, e) => TailInsertTailTo(m, h, e)
    case ListRemove(e) => ListRemoveFrom(m, e)
    case TailRemove(h, e) => TailRemoveFrom(m, h, e)
  }

  lemma InsertHeadKeeps(m: Heap, u: Heap, lists: seq<seq<nat>>, tails: set<nat>, h: nat, e: nat)
    requires InRange(m) && Holds(m, lists, tails) && h < |lists| && e < |m.next| && Unlinked(lists, e)
    requires u == if h in tails then TailInsertHeadTo(m, h, e) else ListInsertHeadTo(m, h, e)
    ensures Holds(u, lists[h := [e] + lists[h]], tails)
  {
    var s := lists[h];
    var t := [e] + s;
    assert Spells(m, h, s, h in tails);
    forall g: nat | g < |lists| && g != h ensures Spells(u, g, lists[g], g in tails) {
      assert Spells(m, g, lists[g], g in tails);
      forall i: nat | i < |lists[g]|
        ensures lists[g][i] < |m.next|
        ensures u.next[lists[g][i]] == m.next[lists[g][i]] && u.prev[lists[g][i]] == m.prev[lists[g][i]]
      {
        assert Linked(m, g, lists[g], i);
        assert lists[g][i] in lists[g];
        if s != [] && lists[g][i] == s[0] {
          Apart(m, lists, tails, g, i, h, 0);
        }
      }
      Misses(m, u, g, lists[g], g in tails);
    }
    forall i: nat | i < |t| ensures Linked(u, h, t, i) {
      if i > 0 {
        assert Linked(m, h, s, i - 1);
        assert s[i - 1] in s;
        if s[i - 1] == s[0] {
          Apart(m, lists, tails, h, i - 1, h, 0);
        }
      }
    }
  }

  /** The stores to an element of `h` miss the other lists. */
  lemma OthersKeep(m: Heap, u: Heap, lists: seq<seq<nat>>, tails: set<nat>, h: nat, e: nat, g: nat)
    requires Holds(m, lists, tails) && h < |lists| && g < |lists| && g != h && e !in lists[g]
    requires |u.first| == |m.first| && |u.last| == |m.last| && |u.next| == |m.next| && |u.prev| == |m.prev|
    requires u.first[g] == m.first[g] && u.last[g] == m.last[g]
    requires forall x: nat :: x < |m.next| && x != e && x !in lists[h] ==>
      u.next[x] == m.next[x] && u.prev[x] == m.prev[x]
    ensures Spells(u, g, lists[g], g in tails)
  {
    var s := lists[g];
    assert Spells(m, g, s, g in tails);
    forall i: nat | i < |s| ensures s[i] < |m.next| && u.next[s[i]] == m.next[s[i]] && u.prev[s[i]] == m.prev[s[i]] {
      assert Linked(m, g, s, i);
      if s[i] in lists[h] {
        var j: nat :| j < |lists[h]| && lists[h][j] == s[i];
        Apart(m, lists, tails, g, i, h, j);
      }
    }
    Misses(m, u, g, s, g in tails);
  }

  lemma InsertTailKeeps(m: Heap, lists: seq<seq<nat>>, tails: set<nat>, h: nat, e: nat)
    requires InRange(m) && Holds(m, lists, tails) && h < |lists| && h in tails && e < |m.next| && Unlinked(lists, e)
    ensures Holds(TailInsertTailTo(m, h, e), lists[h := lists[h] + [e]], tails)
  {
    var u, s := TailInsertTailTo(m, h, e), lists[h];
    var t, n := s + [e], |s|;
    assert Spells(m, h, s, true);
    assert n > 0 ==> Linked(m, h, s, n - 1);
    forall g: nat | g < |lists| && g != h ensures Spells(u, g, lists[g], g in tails) {
      OthersKeep(m, u, lists, tails, h, e, g);
    }
    forall i: nat | i < |t| ensures Linked(u, h, t, i) {
      if i < n {
        assert Linked(m, h, s, i);
        assert s[i] in s;
        if s[i] == s[n - 1] {
          Apart(m, lists, tails, h, i, h, n - 1);
        }
      }
    }
  }

  lemma RemoveKeeps(m: Heap, u: Heap, lists: seq<seq<nat>>, tails: set<nat>, h: nat, k: nat)
    requires InRange(m) && Holds(m, lists, tails) && h < |lists| && k < |lists[h]| && lists[h][k] < |m.next|
    requires u == if h in tails then TailRemoveFrom(m, h, lists[h][k]) else ListRemoveFrom(m, lists[h][k])
    ensures Holds(u, lists[h := lists[h][..k] + lists[h][k + 1..]], tails)
  {
    var s, e := lists[h], lists[h][k];
    var t := s[..k] + s[k + 1..];
    assert Spells(m, h, s, h in tails) && Linked(m, h, s, k);
    assert k > 0 ==> Linked(m, h, s, k - 1);
    assert k + 1 < |s| ==> Linked(m, h, s, k + 1);
    forall g: nat | g < |lists| && g != h ensures Spells(u, g, lists[g], g in tails) {
      if e in lists[g] {
        var j: nat :| j < |lists[g]| && lists[g][j] == e;
        Apart(m, lists, tails, g, j, h, k);
      }
      OthersKeep(m, u, lists, tails, h, e, g);
    }
    forall i: nat | i < |t| ensures Linked(u, h, t, i) {
      RemoveLinks(m, u, lists, tails, h, k, i);
    }
  }

  /** Around the removed element the links close. */
  lemma RemoveLinks(m: Heap, u: Heap, lists: seq<seq<nat>>, tails: set<nat>, h: nat, k: nat, i: nat)
    requires InRange(m) && Holds(m, lists, tails) && h < |lists| && k < |lists[h]| && lists[h][k] < |m.next|
    requires u == if h in tails then TailRemoveFrom(m, h, lists[h][k]) else ListRemoveFrom(m, lists[h][k])
    requires i < |lists[h]| - 1
    ensures Linked(u, h, lists[h][..k] + lists[h][k + 1..], i)
  {
    var s := lists[h];
    var j := if i < k then i else i + 1;
    assert Spells(m, h, s, h in tails) && Linked(m, h, s, k) && Linked(m, h, s, j);
    assert k > 0 ==> Linked(m, h, s, k - 1);
    assert k + 1 < |s| ==> Linked(m, h, s, k + 1);
    if k > 0 && s[j] == s[k - 1] {
      Apart(m, lists, tails, h, j, h, k - 1);
    }
    if k + 1 < |s| && s[j] == s[k + 1] {
      Apart(m, lists, tails, h, j, h, k + 1);
    }
  }

  // ----- Runs -----

  lemma ListRemoveStep(m: Heap, lists: seq<seq<nat>>, tails: set<nat>, e: nat)
    requires InRange(m) && Holds(m, lists, tails) && Allowed(|m.next|, lists, tails, ListRemove(e))
    ensures e < |m.next| && Holds(ListRemoveFrom(m, e), Effect(lists, ListRemove(e)), tails)
  {
    var h: nat :| h < |lists| && h !in tails && e in lists[h];
    var k := Index(lists[h], e);
    assert Spells(m, h, lists[h], false) && Linked(m, h, lists[h], k);
    RemoveKeeps(m, ListRemoveFrom(m, e), lists, tails, h, k);
    OnlyThere(m, lists, tails, h, k);
  }

  lemma TailRemoveStep(m: Heap, lists: seq<seq<nat>>, tails: set<nat>, h: nat, e: nat)
    requires InRange(m) && Holds(m, lists, tails) && Allowed(|m.next|, lists, tails, TailRemove(h, e))
    ensures h < |m.first| && e < |m.next| && Holds(TailRemoveFrom(m, h, e), Effect(lists, TailRemove(h, e)), tails)
  {
    var k := Index(lists[h], e);
    assert Spells(m, h, lists[h], true) && Linked(m, h, lists[h], k);
    RemoveKeeps(m, TailRemoveFrom(m, h, e), lists, tails, h, k);
  }

  /** One operation does to the lists exactly what it should, and to the others nothing. */
  lemma StepKeeps(m: Heap, lists: seq<seq<nat>>, tails: set<nat>, op: Op)
    requires InRange(m) && Holds(m, lists, tails) && Allowed(|m.next|, lists, tails, op)
    ensures Valid(m, op) && Holds(Do(m, op), Effect(lists, op), tails)
  {
    match op
    case ListInsertHead(h, e) => InsertHeadKeeps(m, Do(m, op), lists, tails, h, e);
    case TailInsertHead(h, e) => InsertHeadKeeps(m, Do(m, op), lists, tails, h, e);
    case TailInsertTail(h, e) => InsertTailKeeps(m, lists, tails, h, e);
    case TailRemove(h, e) => TailRemoveStep(m, lists, tails, h, e);
    case ListRemove(e) => ListRemoveStep(m, lists, tails, e);
  }

  lemma OnlyThere(m: Heap, lists: seq<seq<nat>>, tails: set<nat>, h: nat, k: nat)
    requires Holds(m, lists, tails) && h < |lists| && k < |lists[h]| && Index(lists[h], lists[h][k]) == k
    ensures Effect(lists, ListRemove(lists[h][k])) == lists[h := lists[h][..k] + lists[h][k + 1..]]
  {
    var e := lists[h][k];
    forall g: nat | g < |lists| && g != h ensures e !in lists[g] {
      if e in lists[g] {
        Apart(m, lists, tails, g, Index(lists[g], e), h, k);
      }
    }
  }

  ghost predicate AllAllowed(n: nat, lists: seq<seq<nat>>, tails: set<nat>, ops: seq<Op>)
    decreases |ops|
  {
    ops == [] || (Allowed(n, lists, tails, ops[0]) && AllAllowed(n, Effect(lists, ops[0]), tails, ops[1..]))
  }

  function Effects(lists: seq<seq<nat>>, ops: seq<Op>): seq<seq<nat>>
    decreases |ops|
  {
    if ops == [] then lists else Effects(Effect(lists, ops[0]), ops[1..])
  }

  /** Runs the operations as long as they can be executed at all. */
  ghost function Run(m: Heap, ops: seq<Op>): Heap
    requires InRange(m)
    decreases |ops|
  {
    if ops == [] || !Valid(m, ops[0]) then m else Run(Do(m, ops[0]), ops[1..])
  }

  /** After any series of insertions of unlinked elements and removals of linked ones, in any mix of
      lists, the pointers spell exactly the sequences. */
  lemma {:induction false} RunKeeps(m: Heap, lists: seq<seq<nat>>, tails: set<nat>, ops: seq<Op>)
    requires InRange(m) && Holds(m, lists, tails) && AllAllowed(|m.next|, lists, tails, ops)
    ensures Holds(Run(m, ops), Effects(lists, ops), tails)
    decreases |ops|
  {
    if ops != [] {
      StepKeeps(m, lists, tails, ops[0]);
      RunKeeps(Do(m, ops[0]), Effect(lists, ops[0]), tails, ops[1..]);
    }
  }

  lemma {:induction false} SameStart(
      m: Heap, lists: seq<seq<nat>>, tails: set<nat>, h: nat, k: nat, s: seq<nat>, i: nat)
    requires InRange(m) && Holds(m, lists, tails) && h < |lists| && h in tails
    requires i <= k < |lists[h]| && lists[h][k] < |m.next|
    requires Spells(TailInsertTailTo(m, h, lists[h][k]), h, s, true)
    ensures i < |s| && s[i] == lists[h][i]
  {
    var t := lists[h];
    var u := TailInsertTailTo(m, h, t[k]);
    assert Spells(m, h, t, true) && Linked(m, h, t, i);
    if i > 0 {
      SameStart(m, lists, tails, h, k, s, i - 1);
      assert Linked(m, h, t, i - 1) && Linked(u, h, s, i - 1);
      if t[i - 1] == t[k] {
        Apart(m, lists, tails, h, i - 1, h, k);
      }
      if t[i - 1] == t[|t| - 1] {
        Apart(m, lists, tails, h, i - 1, h, |t| - 1);
      }
    }
  }

  /** An element put at the tail of the queue it is already in: the links spell no list any more. */
  lemma TwiceBreaks(m: Heap, lists: seq<seq<nat>>, tails: set<nat>, h: nat, k: nat, s: seq<nat>)
    requires InRange(m) && Holds(m, lists, tails) && h < |lists| && h in tails
    requires k < |lists[h]| && lists[h][k] < |m.next|
    ensures !Spells(TailInsertTailTo(m, h, lists[h][k]), h, s, true)
  {
    var t := lists[h];
    var u := TailInsertTailTo(m, h, t[k]);
    if Spells(u, h, s, true) {
      SameStart(m, lists, tails, h, k, s, k);
      assert Linked(u, h, s, k);
      if k > 0 {
        SameStart(m, lists, tails, h, k, s, k - 1);
        if t[k - 1] == t[|t| - 1] {
          Apart(m, lists, tails, h, k - 1, h, |t| - 1);
        }
      }
    }
  }

  // ----- Removing what is in no list -----

  predicate InLists(lists: seq<seq<nat>>, x: nat) { !Unlinked(lists, x) }

  /** The links that the lists are made of are the same. */
  ghost predicate Agree(m: Heap, u: Heap, lists: seq<seq<nat>>, tails: set<nat>)
    requires |u.first| == |m.first| == |u.last| == |m.last| == |lists|
    requires |u.next| == |m.next| == |u.prev| == |m.prev|
  {
    && u.first == m.first && (forall h: nat :: h in tails && h < |lists| ==> u.last[h] == m.last[h])
    && (forall x: nat :: x < |m.next| && InLists(lists, x) ==> u.next[x] == m.next[x] && u.prev[x] == m.prev[x])
  }

  /** Only these matter. */
  lemma AgreeIff(m: Heap, u: Heap, lists: seq<seq<nat>>, tails: set<nat>)
    requires Holds(m, lists, tails) && |u.first| == |m.first| == |u.last| && |u.next| == |m.next| == |u.prev|
    ensures Holds(u, lists, tails) <==> Agree(m, u, lists, tails)
  {
    if Agree(m, u, lists, tails) {
      forall h: nat | h < |lists| ensures Spells(u, h, lists[h], h in tails) {
        assert Spells(m, h, lists[h], h in tails);
        forall i: nat | i < |lists[h]|
          ensures var x := lists[h][i]; x < |m.next| && u.next[x] == m.next[x] && u.prev[x] == m.prev[x]
        {
          assert Linked(m, h, lists[h], i) && lists[h][i] in lists[h];
        }
        Misses(m, u, h, lists[h], h in tails);
      }
    }
    if Holds(u, lists, tails) {
      BothHold(m, u, lists, tails);
    }
  }

  lemma BothHold(m: Heap, u: Heap, lists: seq<seq<nat>>, tails: set<nat>)
    requires Holds(m, lists, tails) && |u.first| == |m.first| == |u.last| && |u.next| == |m.next| == |u.prev|
    requires Holds(u, lists, tails)
    ensures Agree(m, u, lists, tails)
  {
    forall h: nat | h < |lists| ensures u.first[h] == m.first[h] && (h in tails ==> u.last[h] == m.last[h]) {
      assert Spells(m, h, lists[h], h in tails) && Spells(u, h, lists[h], h in tails);
    }
    forall x: nat | x < |m.next| && InLists(lists, x) ensures u.next[x] == m.next[x] && u.prev[x] == m.prev[x] {
      var h: nat :| h < |lists| && x in lists[h];
      var i := Index(lists[h], x);
      assert Spells(m, h, lists[h], h in tails) && Spells(u, h, lists[h], h in tails);
      assert Linked(m, h, lists[h], i) && Linked(u, h, lists[h], i);
    }
  }

  /** The links left in an element agree with what is linked now: a neighbour that it names is in no list
      any more, or has just the link that unlinking would store. */
  predicate LeftoverAgrees(m: Heap, lists: seq<seq<nat>>, h: nat, e: nat)
    requires e < |m.next| && e < |m.prev| && h < |m.last|
  {
    && (match m.next[e]
        case At(n) => Unlinked(lists, n) || (n < |m.prev| && m.prev[n] == m.prev[e])
        case Null => m.last[h] == m.prev[e])
    && (match m.prev[e]
        case First(g) => g < |m.first| && m.first[g] == m.next[e]
        case NextOf(x) => Unlinked(lists, x) || (x < |m.next| && m.next[x] == m.next[e]))
  }

  /** TAILQ_REMOVE of an element that is in no list, as env_free does to an environment that is not
      runnable, leaves all lists as they are iff the links left in the element agree with them. */
  lemma RemoveUnlinkedIff(m: Heap, lists: seq<seq<nat>>, tails: set<nat>, h: nat, e: nat)
    requires InRange(m) && Holds(m, lists, tails) && h < |lists| && h in tails && e < |m.next| && Unlinked(lists, e)
    ensures Holds(TailRemoveFrom(m, h, e), lists, tails) <==> LeftoverAgrees(m, lists, h, e)
  {
    var u := TailRemoveFrom(m, h, e);
    assert PtrOk(m, m.next[e]) && LocOk(m, m.prev[e]);
    AgreeIff(m, u, lists, tails);
  }

  // ----- As they run -----

  class Links {
    const first: array<Ptr>
    const last: array<Loc>
    const next: array<Ptr>
    const prev: array<Loc>

    ghost function Snapshot(): Heap
      reads first, last, next, prev
    {
      Heap(first[..], last[..], next[..], prev[..])
    }

    ghost predicate Distinct() { first != next && last != prev }

    constructor (heads: nat, elements: nat, ghost tails: set<nat>)
      ensures InRange(Snapshot()) && Distinct() && fresh(first) && fresh(last) && fresh(next) && fresh(prev)
      ensures Holds(Snapshot(), seq(heads, _ => []), tails)
    {
      first := new Ptr[heads](_ => Null);
      last := new Loc[heads](h requires h >= 0 => First(h));
      next := new Ptr[elements](_ => Null);
      prev := new Loc[elements](e requires e >= 0 => NextOf(e));
    }

    /** `*p = q`. */
    method Assign(p: Loc, q: Ptr)
      requires Distinct() && LocOk(Snapshot(), p)
      modifies first, next
      ensures Snapshot() == Store(old(Snapshot()), p, q)
    {
      match p {
        case First(h) => first[h] := q;
        case NextOf(e) => next[e] := q;
      }
    }

    method ListInsertHeadMacro(h: nat, e: nat)
      requires Distinct() && InRange(Snapshot()) && h < first.Length && e < next.Length
      modifies first, next, prev
      ensures Snapshot() == ListInsertHeadTo(old(Snapshot()), h, e)
    {
      assert PtrOk(Snapshot(), Snapshot().first[h]);
      next[e] := first[h];
      if next[e] != Null {
        prev[first[h].e] := NextOf(e);
      }
      first[h] := At(e);
      prev[e] := First(h);
    }

    method TailInsertHeadMacro(h: nat, e: nat)
      requires Distinct() && InRange(Snapshot()) && h < first.Length && e < next.Length
      modifies first, last, next, prev
      ensures Snapshot() == TailInsertHeadTo(old(Snapshot()), h, e)
    {
      assert PtrOk(Snapshot(), Snapshot().first[h]);
      next[e] := first[h];
      if next[e] != Null {
        prev[first[h].e] := NextOf(e);
      } else {
        last[h] := NextOf(e);
      }
      first[h] := At(e);
      prev[e] := First(h);
    }

    method TailInsertTailMacro(h: nat, e: nat)
      requires Distinct() && InRange(Snapshot()) && h < first.Length && e < next.Length
      modifies first, last, next, prev
      ensures Snapshot() == TailInsertTailTo(old(Snapshot()), h, e)
    {
      assert LocOk(Snapshot(), Snapshot().last[h]);
      next[e] := Null;
      prev[e] := last[h];
      Assign(last[h], At(e));
      last[h] := NextOf(e);
    }

    method ListRemoveMacro(e: nat)
      requires Distinct() && InRange(Snapshot()) && e < next.Length
      modifies first, next, prev
      ensures Snapshot() == ListRemoveFrom(old(Snapshot()), e)
    {
      assert PtrOk(Snapshot(), Snapshot().next[e]) && LocOk(Snapshot(), Snapshot().prev[e]);
      if next[e] != Null {
        prev[next[e].e] := prev[e];
      }
      Assign(prev[e], next[e]);
    }

    method TailRemoveMacro(h: nat, e: nat)
      requires Distinct() && InRange(Snapshot()) && h < first.Length && e < next.Length
      modifies first, last, next, prev
      ensures Snapshot() == TailRemoveFrom(old(Snapshot()), h, e)
    {
      assert PtrOk(Snapshot(), Snapshot().next[e]) && LocOk(Snapshot(), Snapshot().prev[e]);
      if next[e] != Null {
        prev[next[e].e] := prev[e];
      } else {
        last[h] := prev[e];
      }
      Assign(prev[e], next[e]);
    }
  }
}
