/**
 * Python's sorted(xs, key=...): a stable sort. The model is insertion sort over
 * a total preorder on items; its contract is the permutation, the order and
 * the stability that sorted() promises.
 */
module Sorting {
  import opened Seqs

  ghost predicate TotalPreorder<T(!new)>(le: (T, T) -> bool)
  {
    && (forall a, b :: le(a, b) || le(b, a))
    && (forall a, b, c :: le(a, b) && le(b, c) ==> le(a, c))
  }

  predicate SortedBy<T>(s: seq<T>, le: (T, T) -> bool)
  {
    forall i, j :: 0 <= i < j < |s| ==> le(s[i], s[j])
  }

  /** Places x after every item of r that does not sort after it. */
  function Insert<T(!new)>(r: seq<T>, x: T, le: (T, T) -> bool): (r': seq<T>)
    requires TotalPreorder(le)
    requires SortedBy(r, le)
    ensures multiset(r') == multiset(r) + multiset{x}
    ensures SortedBy(r', le)
  {
    if r == [] then [x]
    else if le(r[|r| - 1], x) then r + [x]
    else
      var init, last := r[..|r| - 1], r[|r| - 1];
      assert r == init + [last];
      var s := Insert(init, x, le);
      assert forall y :: y in s ==> y in multiset(init) + multiset{x};
      assert forall y :: y in s ==> le(y, last);
      s + [last]
  }

  function SortBy<T(!new)>(s: seq<T>, le: (T, T) -> bool): (r: seq<T>)
    requires TotalPreorder(le)
    ensures multiset(r) == multiset(s)
    ensures SortedBy(r, le)
  {
    if s == [] then []
    else
      var init, last := s[..|s| - 1], s[|s| - 1];
      assert s == init + [last];
      Insert(SortBy(init, le), last, le)
  }

  /** The items equivalent to z under le: those with the same sort key. */
  function SameKey<T>(z: T, le: (T, T) -> bool): T -> bool
  {
    y => le(z, y) && le(y, z)
  }

  lemma {:induction false} InsertStable<T(!new)>(r: seq<T>, x: T, le: (T, T) -> bool, z: T)
    requires TotalPreorder(le)
    requires SortedBy(r, le)
    ensures Filter(Insert(r, x, le), SameKey(z, le))
         == Filter(r, SameKey(z, le)) + (if SameKey(z, le)(x) then [x] else [])
  {
    var p := SameKey(z, le);
    if r == [] {
      assert Insert(r, x, le) == [] + [x];
    } else if le(r[|r| - 1], x) {
      FilterConcat(r, [x], p);
      assert Filter([x], p) == Filter([], p) + (if p(x) then [x] else []);
    } else {
      var init, last := r[..|r| - 1], r[|r| - 1];
      InsertStable(init, x, le, z);
      var s := Insert(init, x, le);
      assert Insert(r, x, le) == s + [last];
      assert r == init + [last];
      assert p(x) ==> !p(last);
      FilterAppendPast(s, init, last, x, p);
    }
  }

  lemma FilterAppendPast<T>(s: seq<T>, init: seq<T>, last: T, x: T, p: T -> bool)
    requires Filter(s, p) == Filter(init, p) + (if p(x) then [x] else [])
    requires p(x) ==> !p(last)
    ensures Filter(s + [last], p) == Filter(init + [last], p) + (if p(x) then [x] else [])
  {
    assert (s + [last])[..|s + [last]| - 1] == s;
    assert (init + [last])[..|init + [last]| - 1] == init;
  }

  /** Stability: items with equal keys keep their input order. */
  lemma {:induction false} SortByStable<T(!new)>(s: seq<T>, le: (T, T) -> bool, z: T)
    requires TotalPreorder(le)
    ensures Filter(SortBy(s, le), SameKey(z, le)) == Filter(s, SameKey(z, le))
  {
    if s != [] {
      var init, last := s[..|s| - 1], s[|s| - 1];
      SortByStable(init, le, z);
      InsertStable(SortBy(init, le), last, le, z);
    }
  }
}
