/**
 * pandas' DataFrame.groupby over a column of names, as the tests use it:
 * rows whose key is missing belong to no group, the groups come in sorted
 * key order, and each group keeps its rows in frame order.
 */
module Groups {
  import opened Wrappers
  import opened Text
  import opened Seqs
  import opened Sorting

  /** The keys present in the rows, in row order, repeats included. */
  function Present<R(!new)>(rows: seq<R>, key: R -> Option<string>): (r: seq<string>)
    ensures forall k :: k in r <==> exists x :: x in rows && key(x) == Some(k)
  {
    if rows == [] then []
    else
      var last := rows[|rows| - 1];
      assert forall x :: x in rows <==> x in rows[..|rows| - 1] || x == last by {
        assert rows == rows[..|rows| - 1] + [last];
      }
      Present(rows[..|rows| - 1], key) + (if key(last).Some? then [key(last).value] else [])
  }

  /** The names of s, each once, at its first occurrence. */
  function Dedup(s: seq<string>): (r: seq<string>)
    ensures Distinct(r)
    ensures forall x :: x in r <==> x in s
  {
    if s == [] then []
    else
      var init, last := s[..|s| - 1], s[|s| - 1];
      assert s == init + [last];
      var d := Dedup(init);
      if last in d then d else d + [last]
  }

  lemma LexLeIsPreorder()
    ensures TotalPreorder(LexLe)
  {
    forall a: string, b: string ensures LexLe(a, b) || LexLe(b, a) {
      LexLeTotal(a, b);
    }
    forall a: string, b: string, c: string | LexLe(a, b) && LexLe(b, c) ensures LexLe(a, c) {
      LexLeTransitive(a, b, c);
    }
  }

  /** The group keys of the rows: each present key once, in ascending order. */
  function GroupKeys<R(!new)>(rows: seq<R>, key: R -> Option<string>): (ks: seq<string>)
    ensures forall k :: k in ks <==> exists x :: x in rows && key(x) == Some(k)
    ensures Distinct(ks)
    ensures forall i, j :: 0 <= i < j < |ks| ==> LexLe(ks[i], ks[j])
  {
    LexLeIsPreorder();
    var d := Dedup(Present(rows, key));
    var ks := SortBy(d, LexLe);
    DistinctMultiset(d);
    MultisetDistinct(ks);
    assert forall k :: k in ks <==> k in multiset(ks);
    assert forall k :: k in d <==> k in multiset(d);
    ks
  }

  function KeyIs<R>(key: R -> Option<string>, k: string): R -> bool
  {
    (x: R) => key(x) == Some(k)
  }

  /** The group of key k: its rows in frame order. */
  function Group<R(!new)>(rows: seq<R>, key: R -> Option<string>, k: string): (g: seq<R>)
    ensures forall x :: x in g <==> x in rows && key(x) == Some(k)
  {
    Filter(rows, KeyIs(key, k))
  }

  /** pd.concat of a list of frames, ignoring the index. */
  function Concat<T(!new)>(gs: seq<seq<T>>): (r: seq<T>)
    ensures forall x :: x in r <==> exists g :: g in gs && x in g
  {
    if gs == [] then []
    else
      var init, last := gs[..|gs| - 1], gs[|gs| - 1];
      assert gs == init + [last];
      Concat(init) + last
  }

  /** A subset has no more elements. */
  lemma SubsetCard<T>(a: set<T>, b: set<T>)
    requires a <= b
    ensures |a| <= |b|
  {
    assert b == a + (b - a);
  }
}
