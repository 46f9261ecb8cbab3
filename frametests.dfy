/**
 * The tests of the data-frame analyser over endpoints_df and
 * participants_df. Each test's CSV file is its result here.
 */
module FrameTests {
  import opened Wrappers
  import opened Text
  import opened Seqs
  import opened Groups
  import opened Records
  import opened Tables
  import opened Frames

  // ------------------------------------------------------------ test_excess_endpoints

  /** x has the given kind and no row of the other kind shares its topic name (missing names match each other). */
  function Unmatched(rows: seq<EndpointRow>, kind: Kind): EndpointRow -> bool
  {
    (x: EndpointRow) => x.kind == kind && forall y :: y in rows && y.kind != kind ==> y.topic != x.topic
  }

  /**
   * test_excess_endpoints: the "left_only" rows of the outer merges on the
   * topic name, writers first. A frame without writers or without readers
   * has no such group, and the lookup raises.
   */
  function ExcessEndpoints(rows: seq<EndpointRow>): Result<(seq<EndpointRow>, seq<EndpointRow>), Fault>
  {
    if !(exists x :: x in rows && x.kind == Writer) || !(exists x :: x in rows && x.kind == Reader) then Failure(MissingGroup)
    else Success((Filter(rows, Unmatched(rows, Writer)), Filter(rows, Unmatched(rows, Reader))))
  }

  /** The test fails, on the group lookup, iff the frame lacks writers or lacks readers. */
  lemma ExcessFails(rows: seq<EndpointRow>)
    ensures ExcessEndpoints(rows).Failure? <==> (forall x :: x in rows ==> x.kind == Reader) || (forall x :: x in rows ==> x.kind == Writer)
    ensures ExcessEndpoints(rows).Failure? ==> ExcessEndpoints(rows).error == MissingGroup
  {
  }

  /**
   * Otherwise it keeps every writer row, as often as it occurs, whose
   * topic no reader row has, and nothing else; symmetrically for readers.
   */
  lemma ExcessKeeps(rows: seq<EndpointRow>, kind: Kind, x: EndpointRow)
    requires ExcessEndpoints(rows).Success?
    ensures var out := if kind == Writer then ExcessEndpoints(rows).value.0 else ExcessEndpoints(rows).value.1;
      multiset(out)[x] == if x.kind == kind && (forall y :: y in rows && y.kind != kind ==> y.topic != x.topic) then multiset(rows)[x] else 0
  {
    FilterMultiset(rows, Unmatched(rows, kind));
  }

  // ------------------------------------------------------------ grouped tests

  function TopicOf(): EndpointRow -> Option<string>
  {
    (x: EndpointRow) => x.topic
  }

  /** The groups of the keys, in key order. */
  function GroupsOf<R(!new)>(rows: seq<R>, key: R -> Option<string>, keys: seq<string>): (gs: seq<seq<R>>)
    ensures |gs| == |keys| && forall i :: 0 <= i < |keys| ==> gs[i] == Group(rows, key, keys[i])
  {
    seq(|keys|, i requires 0 <= i < |keys| => Group(rows, key, keys[i]))
  }

  /** The frames the loop over the groups collects and concatenates; pd.concat raises on an empty list. */
  function Selected<R(!new)>(rows: seq<R>, key: R -> Option<string>, keep: seq<R> -> bool): Result<seq<R>, Fault>
  {
    var picked := Filter(GroupsOf(rows, key, GroupKeys(rows, key)), keep);
    if picked == [] then Failure(NothingToConcat) else Success(Concat(picked))
  }

  /** The loop shared by the tests that keep whole groups: append each group that passes, then concatenate. */
  method CollectGroups<R(!new)>(rows: seq<R>, key: R -> Option<string>, keep: seq<R> -> bool) returns (r: Result<seq<R>, Fault>)
    ensures r == Selected(rows, key, keep)
  {
    var keys := GroupKeys(rows, key);
    ghost var groups := GroupsOf(rows, key, keys);
    var picked: seq<seq<R>> := [];
    var i := 0;
    while i < |keys|
      invariant 0 <= i <= |keys|
      invariant picked == Filter(groups[..i], keep)
    {
      var group := Group(rows, key, keys[i]);
      PickStep(groups, i, keep);
      if keep(group) {
        picked := picked + [group];
      }
      i := i + 1;
    }
    assert groups[..i] == groups;
    assert picked == Filter(GroupsOf(rows, key, GroupKeys(rows, key)), keep);
    if picked == [] {
      return Failure(NothingToConcat);
    }
    return Success(Concat(picked));
  }

  lemma PickStep<T>(groups: seq<T>, i: nat, keep: T -> bool)
    requires i < |groups|
    ensures Filter(groups[..i + 1], keep) == Filter(groups[..i], keep) + (if keep(groups[i]) then [groups[i]] else [])
  {
    assert groups[..i + 1] == groups[..i] + [groups[i]];
    FilterSnoc(groups[..i], groups[i], keep);
  }

  /**
   * What the grouped tests report: they fail iff no group passes, and
   * otherwise hold exactly the rows with a key whose group passes.
   */
  lemma SelectedMeaning<R(!new)>(rows: seq<R>, key: R -> Option<string>, keep: seq<R> -> bool)
    ensures Selected(rows, key, keep).Failure? <==>
      forall x :: x in rows && key(x).Some? ==> !keep(Group(rows, key, key(x).value))
    ensures Selected(rows, key, keep).Failure? ==> Selected(rows, key, keep).error == NothingToConcat
    ensures Selected(rows, key, keep).Success? ==>
      forall x :: x in Selected(rows, key, keep).value <==> x in rows && key(x).Some? && keep(Group(rows, key, key(x).value))
  {
    var keys := GroupKeys(rows, key);
    var groups := GroupsOf(rows, key, keys);
    var picked := Filter(groups, keep);
    forall g | g in picked ensures exists k :: k in keys && g == Group(rows, key, k) && keep(g) {
      var i :| 0 <= i < |groups| && groups[i] == g;
    }
    forall x | x in rows && key(x).Some? && keep(Group(rows, key, key(x).value))
      ensures Group(rows, key, key(x).value) in picked && x in Group(rows, key, key(x).value)
    {
      var i :| 0 <= i < |keys| && keys[i] == key(x).value;
      assert groups[i] == Group(rows, key, key(x).value);
    }
    if picked != [] {
      var g := picked[0];
      var k :| k in keys && g == Group(rows, key, k) && keep(g);
      var x :| x in rows && key(x) == Some(k);
    }
  }

  /** The set of distinct type names of a group, missing names counting as one value (Series.unique). */
  function TypeNames(g: seq<EndpointRow>): set<Option<string>>
  {
    set x | x in g :: x.typeName
  }

  predicate Inconsistent(g: seq<EndpointRow>)
  {
    |TypeNames(g)| != 1
  }

  /** test_inconsistent_type_names: the topic groups whose number of distinct type names is not one. */
  method InconsistentTypeNames(rows: seq<EndpointRow>) returns (r: Result<seq<EndpointRow>, Fault>)
    ensures r == Selected(rows, TopicOf(), Inconsistent)
  {
    r := CollectGroups(rows, TopicOf(), Inconsistent);
  }

  /** A topic group is reported iff two of its rows disagree on the type name. */
  lemma InconsistentMeaning(rows: seq<EndpointRow>, k: string)
    requires exists x :: x in rows && x.topic == Some(k)
    ensures Inconsistent(Group(rows, TopicOf(), k)) <==>
      exists x, y :: x in rows && y in rows && x.topic == Some(k) && y.topic == Some(k) && x.typeName != y.typeName
  {
    var g := Group(rows, TopicOf(), k);
    var x0 :| x0 in rows && x0.topic == Some(k);
    assert x0 in g;
    DisagreeIffInconsistent(g);
  }

  /** A non-empty group has other than one type name iff two of its rows disagree on it. */
  lemma DisagreeIffInconsistent(g: seq<EndpointRow>)
    requires g != []
    ensures Inconsistent(g) <==> exists x, y :: x in g && y in g && x.typeName != y.typeName
  {
    if exists x, y :: x in g && y in g && x.typeName != y.typeName {
      var x, y :| x in g && y in g && x.typeName != y.typeName;
      assert {x.typeName, y.typeName} <= TypeNames(g);
      assert |{x.typeName, y.typeName}| == 2;
      SubsetCard({x.typeName, y.typeName}, TypeNames(g));
    } else {
      assert g[0] in g;
      assert TypeNames(g) == {g[0].typeName};
    }
  }

  /** Reader rows are grouped by topic; writer rows fall in groups the test skips. */
  function ReaderTopicOf(): EndpointRow -> Option<string>
  {
    (x: EndpointRow) => if x.kind == Reader then x.topic else None
  }

  predicate MulticastCandidate(g: seq<EndpointRow>)
  {
    (forall x :: x in g ==> x.filter.None?) && |g| > 2
  }

  /**
   * test_potential_multicast_readers: the (topic, "reader") groups in which
   * no reader has a content filter and there are more than two readers.
   */
  method PotentialMulticastReaders(rows: seq<EndpointRow>) returns (r: Result<seq<EndpointRow>, Fault>)
    ensures r == Selected(rows, ReaderTopicOf(), MulticastCandidate)
  {
    r := CollectGroups(rows, ReaderTopicOf(), MulticastCandidate);
  }

  /** A reader group is reported iff none of its readers has a filter and it has at least three readers. */
  lemma MulticastMeaning(rows: seq<EndpointRow>, k: string)
    ensures MulticastCandidate(Group(rows, ReaderTopicOf(), k)) <==>
      (forall x :: x in rows && x.kind == Reader && x.topic == Some(k) ==> x.filter.None?)
      && Count(rows, KeyIs(ReaderTopicOf(), k)) >= 3
  {
  }

  // ------------------------------------------------------------ test_reliable_writer_besteffort_readers

  predicate ReliableWriter(x: EndpointRow)
  {
    x.reliable == Some(ReliableQos) && x.kind == Writer
  }

  predicate BestEffortReader(x: EndpointRow)
  {
    x.reliable == Some(BestEffortQos) && x.kind == Reader
  }

  /** The found flag and the number of appends after the rows of g, in row order. */
  function ScanGroup(g: seq<EndpointRow>): (bool, nat)
  {
    if g == [] then (false, 0)
    else
      var (found, hits) := ScanGroup(g[..|g| - 1]);
      var x := g[|g| - 1];
      var found' := found || ReliableWriter(x);
      (found', hits + if BestEffortReader(x) && found' then 1 else 0)
  }

  function Repeat<T>(x: T, n: nat): (r: seq<T>)
    ensures |r| == n && forall i :: 0 <= i < n ==> r[i] == x
  {
    if n == 0 then [] else Repeat(x, n - 1) + [x]
  }

  /** The list the loop builds over the given groups: each group once per append. */
  function Mismatches(groups: seq<seq<EndpointRow>>): seq<seq<EndpointRow>>
  {
    if groups == [] then []
    else
      var g := groups[|groups| - 1];
      Mismatches(groups[..|groups| - 1]) + Repeat(g, ScanGroup(g).1)
  }

  function MismatchResult(rows: seq<EndpointRow>): Result<seq<EndpointRow>, Fault>
  {
    var list := Mismatches(GroupsOf(rows, TopicOf(), GroupKeys(rows, TopicOf())));
    if list == [] then Failure(NothingToConcat) else Success(Concat(list))
  }

  /**
   * test_reliable_writer_besteffort_readers: within each topic group, in
   * row order, the group is appended once for every best-effort reader that
   * follows a reliable writer.
   */
  method ReliableWriterBesteffortReaders(rows: seq<EndpointRow>) returns (r: Result<seq<EndpointRow>, Fault>)
    ensures r == MismatchResult(rows)
  {
    var keys := GroupKeys(rows, TopicOf());
    var list := CollectMismatches(rows, keys);
    if list == [] {
      return Failure(NothingToConcat);
    }
    return Success(Concat(list));
  }

  /** The loop over the topic groups, in key order. */
  method CollectMismatches(rows: seq<EndpointRow>, keys: seq<string>) returns (list: seq<seq<EndpointRow>>)
    ensures list == Mismatches(GroupsOf(rows, TopicOf(), keys))
  {
    ghost var groups := GroupsOf(rows, TopicOf(), keys);
    list := [];
    var i := 0;
    while i < |keys|
      invariant 0 <= i <= |keys|
      invariant list == Mismatches(groups[..i])
    {
      var group := Group(rows, TopicOf(), keys[i]);
      list := ScanAndAppend(list, group);
      assert groups[..i + 1][..i] == groups[..i];
      i := i + 1;
    }
    assert groups[..i] == groups;
  }

  /** The loop over one group's rows, with its found flag. */
  method ScanAndAppend(list: seq<seq<EndpointRow>>, group: seq<EndpointRow>) returns (list': seq<seq<EndpointRow>>)
    ensures list' == list + Repeat(group, ScanGroup(group).1)
  {
    list' := list;
    var found := false;
    var j := 0;
    while j < |group|
      invariant 0 <= j <= |group|
      invariant (found, |list'| - |list|) == ScanGroup(group[..j])
      invariant list' == list + Repeat(group, |list'| - |list|)
    {
      var row := group[j];
      assert group[..j + 1][..j] == group[..j];
      if row.reliable == Some(ReliableQos) && row.kind == Writer {
        found := true;
      }
      if row.reliable == Some(BestEffortQos) && row.kind == Reader {
        if found {
          list' := list' + [group];
        }
      }
      j := j + 1;
    }
    assert group[..j] == group;
  }

  /** The number of appends is the number of best-effort readers after the first reliable writer. */
  lemma {:induction false} ScanGroupMeaning(g: seq<EndpointRow>)
    ensures ScanGroup(g).0 <==> exists i :: 0 <= i < |g| && ReliableWriter(g[i])
    ensures ScanGroup(g).1 > 0 <==> exists i, j :: 0 <= i < j < |g| && ReliableWriter(g[i]) && BestEffortReader(g[j])
  {
    if g != [] {
      var init := g[..|g| - 1];
      ScanGroupMeaning(init);
      assert forall i :: 0 <= i < |init| ==> init[i] == g[i];
      if ScanGroup(init).1 > 0 {
        var i, j :| 0 <= i < j < |init| && ReliableWriter(init[i]) && BestEffortReader(init[j]);
        assert ReliableWriter(g[i]) && BestEffortReader(g[j]);
      }
      if exists i, j :: 0 <= i < j < |g| && ReliableWriter(g[i]) && BestEffortReader(g[j]) {
        var i, j :| 0 <= i < j < |g| && ReliableWriter(g[i]) && BestEffortReader(g[j]);
        if j < |g| - 1 {
          assert ReliableWriter(init[i]) && BestEffortReader(init[j]);
        } else {
          assert ReliableWriter(init[i]) || i == |g| - 1;
        }
      }
    }
  }

  /** The same rows in another order can change the verdict: a reader before the writer is not counted. */
  lemma MismatchDependsOnOrder(w: EndpointRow, b: EndpointRow)
    requires ReliableWriter(w) && BestEffortReader(b)
    ensures ScanGroup([w, b]).1 == 1 && ScanGroup([b, w]).1 == 0
  {
    assert [w, b][..1] == [w] && [b, w][..1] == [b];
    assert [w][..0] == [] && [b][..0] == [];
    assert ScanGroup([w]) == (true, 0);
    assert ScanGroup([b]) == (false, 0);
  }

  /** A reliable reader does not stop the group being reported. */
  lemma MismatchIgnoresReliableReaders(w: EndpointRow, rr: EndpointRow, b: EndpointRow)
    requires ReliableWriter(w) && BestEffortReader(b) && rr.kind == Reader && rr.reliable == Some(ReliableQos)
    ensures ScanGroup([w, rr, b]).1 == 1
  {
    assert [w, rr, b][..2] == [w, rr];
    assert [w, rr][..1] == [w];
    assert [w][..0] == [];
    assert ScanGroup([w]) == (true, 0);
    assert ScanGroup([w, rr]) == (true, 0);
  }

  lemma {:induction false} MismatchesMembers(groups: seq<seq<EndpointRow>>)
    ensures forall g :: g in Mismatches(groups) <==> g in groups && ScanGroup(g).1 > 0
  {
    if groups != [] {
      var init, g := groups[..|groups| - 1], groups[|groups| - 1];
      MismatchesMembers(init);
      assert groups == init + [g];
      var r := Repeat(g, ScanGroup(g).1);
      if ScanGroup(g).1 > 0 {
        assert r[0] == g;
      }
    }
  }

  /** A group the reliability test reports: some best-effort reader follows a reliable writer. */
  predicate HasMismatch(g: seq<EndpointRow>)
  {
    ScanGroup(g).1 > 0
  }

  /** The list the loop builds holds exactly the groups a selection by HasMismatch keeps. */
  lemma MismatchAsSelected(rows: seq<EndpointRow>)
    ensures MismatchResult(rows).Failure? <==> Selected(rows, TopicOf(), HasMismatch).Failure?
    ensures MismatchResult(rows).Success? ==>
      forall x :: x in MismatchResult(rows).value <==> x in Selected(rows, TopicOf(), HasMismatch).value
  {
    var groups := GroupsOf(rows, TopicOf(), GroupKeys(rows, TopicOf()));
    var list := Mismatches(groups);
    var picked := Filter(groups, HasMismatch);
    MismatchesMembers(groups);
    assert forall g :: g in picked <==> g in list by {
      forall g ensures g in picked <==> g in list {
        if g in groups && HasMismatch(g) {
          var i :| 0 <= i < |groups| && groups[i] == g;
        }
      }
    }
    if list != [] {
      assert list[0] in picked;
    }
    if picked != [] {
      assert picked[0] in list;
    }
  }

  /**
   * The test fails iff no topic group has a best-effort reader after a
   * reliable writer; otherwise it holds exactly the rows of the topics
   * whose group has one.
   */
  lemma MismatchReport(rows: seq<EndpointRow>)
    ensures MismatchResult(rows).Failure? <==>
      forall x :: x in rows && x.topic.Some? ==> !HasMismatch(Group(rows, TopicOf(), x.topic.value))
    ensures MismatchResult(rows).Success? ==>
      forall x :: x in MismatchResult(rows).value <==> x in rows && x.topic.Some? && HasMismatch(Group(rows, TopicOf(), x.topic.value))
  {
    MismatchAsSelected(rows);
    SelectedMeaning(rows, TopicOf(), HasMismatch);
  }
}
