/** The built-in sorts: a stable insertion sort, and what makes a sorted arrangement unique. */
module Sorting {

  /** A newcomer goes behind all it need not precede. */
  function Insert<T>(atMost: (T, T) -> bool, sorted: seq<T>, c: T): seq<T> {
    if sorted == [] then [c]
    else
      var n := |sorted| - 1;
      if atMost(sorted[n], c) then sorted + [c] else Insert(atMost, sorted[..n], c) + [sorted[n]]
  }

  function Sort<T>(atMost: (T, T) -> bool, s: seq<T>): seq<T> {
    if s == [] then [] else Insert(atMost, Sort(atMost, s[..|s| - 1]), s[|s| - 1])
  }

  predicate Ordered<T>(before: (T, T) -> bool, s: seq<T>) {
    forall i, j :: 0 <= i < j < |s| ==> before(s[i], s[j])
  }

  ghost predicate StrictOrder<T(!new)>(before: (T, T) -> bool) {
    && (forall a, b :: before(a, b) ==> !before(b, a))
    && (forall a, b, c :: before(a, b) && before(b, c) ==> before(a, c))
  }

  /** Comparing `a`, which came first, with `c` by `atMost` decides which is before the other. */
  predicate Decides<T>(atMost: (T, T) -> bool, before: (T, T) -> bool, a: T, c: T) {
    if atMost(a, c) then before(a, c) else before(c, a)
  }

  lemma {:induction false} InsertMembers<T>(atMost: (T, T) -> bool, sorted: seq<T>, c: T)
    ensures multiset(Insert(atMost, sorted, c)) == multiset(sorted) + multiset{c}
  {
    if sorted != [] {
      var n := |sorted| - 1;
      assert sorted == sorted[..n] + [sorted[n]];
      if !atMost(sorted[n], c) {
        InsertMembers(atMost, sorted[..n], c);
      }
    }
  }

  lemma {:induction false} SortMembers<T>(atMost: (T, T) -> bool, s: seq<T>)
    ensures multiset(Sort(atMost, s)) == multiset(s)
    ensures |Sort(atMost, s)| == |s|
  {
    if s != [] {
      var front, last := s[..|s| - 1], s[|s| - 1];
      SortMembers(atMost, front);
      InsertMembers(atMost, Sort(atMost, front), last);
      assert s == front + [last];
    }
    assert |multiset(Sort(atMost, s))| == |multiset(s)|;
  }

  lemma InsertedMember<T>(atMost: (T, T) -> bool, sorted: seq<T>, c: T, x: T)
    requires x in Insert(atMost, sorted, c)
    ensures x == c || x in sorted
  {
    InsertMembers(atMost, sorted, c);
    assert x in multiset(Insert(atMost, sorted, c));
  }

  lemma {:induction false} InsertOrdered<T(!new)>(atMost: (T, T) -> bool, before: (T, T) -> bool, sorted: seq<T>, c: T)
    requires StrictOrder(before) && Ordered(before, sorted)
    requires forall i :: 0 <= i < |sorted| ==> Decides(atMost, before, sorted[i], c)
    ensures Ordered(before, Insert(atMost, sorted, c))
  {
    if sorted != [] {
      var n := |sorted| - 1;
      assert Decides(atMost, before, sorted[n], c);
      if atMost(sorted[n], c) {
        assert forall i :: 0 <= i < n ==> before(sorted[i], sorted[n]);
      } else {
        InsertOrdered(atMost, before, sorted[..n], c);
        var front := Insert(atMost, sorted[..n], c);
        forall i | 0 <= i < |front|
          ensures before(front[i], sorted[n])
        {
          InsertedMember(atMost, sorted[..n], c, front[i]);
        }
      }
    }
  }

  /** Sorting by `atMost` orders by `before` when every comparison decides. */
  lemma {:induction false} SortOrdered<T(!new)>(atMost: (T, T) -> bool, before: (T, T) -> bool, s: seq<T>)
    requires StrictOrder(before)
    requires forall i, j :: 0 <= i < j < |s| ==> Decides(atMost, before, s[i], s[j])
    ensures Ordered(before, Sort(atMost, s))
  {
    if s != [] {
      var n := |s| - 1;
      var sorted := Sort(atMost, s[..n]);
      SortOrdered(atMost, before, s[..n]);
      SortMembers(atMost, s[..n]);
      forall i | 0 <= i < |sorted|
        ensures Decides(atMost, before, sorted[i], s[n])
      {
        assert sorted[i] in multiset(s[..n]);
        var j :| 0 <= j < n && s[..n][j] == sorted[i];
        assert s[j] == sorted[i];
      }
      InsertOrdered(atMost, before, sorted, s[n]);
    }
  }

  lemma SameHead<T(!new)>(before: (T, T) -> bool, a: seq<T>, b: seq<T>)
    requires StrictOrder(before) && Ordered(before, a) && Ordered(before, b)
    requires a != [] && b != [] && a[0] in b && b[0] in a
    ensures a[0] == b[0]
  {
    var i :| 0 <= i < |a| && a[i] == b[0];
    var j :| 0 <= j < |b| && b[j] == a[0];
    assert i > 0 ==> before(a[0], b[0]);
    assert j > 0 ==> before(b[0], a[0]);
  }

  lemma TailMembers<T(!new)>(before: (T, T) -> bool, a: seq<T>, c: T)
    requires StrictOrder(before) && Ordered(before, a) && a != []
    ensures c in a[1..] <==> c in a && c != a[0]
  {
    if i :| 0 <= i < |a| && a[i] == c {
      assert i > 0 ==> a[1..][i - 1] == c && before(a[0], a[i]);
    }
  }

  lemma HasMember<T(!new)>(s: seq<T>)
    requires s != []
    ensures exists c :: c in s
  {
    assert s[0] in s;
  }

  /** A collection has one strictly ordered arrangement. */
  lemma {:induction false} OrderUnique<T(!new)>(before: (T, T) -> bool, a: seq<T>, b: seq<T>)
    requires StrictOrder(before) && Ordered(before, a) && Ordered(before, b)
    requires forall c :: c in a <==> c in b
    ensures a == b
  {
    if a == [] {
      if b != [] {
        HasMember(b);
      }
    } else {
      assert a[0] in b && b[0] in a;
      SameHead(before, a, b);
      forall c
        ensures c in a[1..] <==> c in b[1..]
      {
        TailMembers(before, a, c);
        TailMembers(before, b, c);
      }
      OrderUnique(before, a[1..], b[1..]);
      assert a == [a[0]] + a[1..] && b == [b[0]] + b[1..];
    }
  }
}
