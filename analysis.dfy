/**
 * The computing half of export_analysis: endpoints without a counterpart,
 * reliability mismatches, topics with several type names, and the totals;
 * and the orders in which the spreadsheet lists participants, endpoints
 * and topics.
 */
module Analysis {
  import opened Wrappers
  import opened Text
  import opened Seqs
  import opened Sorting
  import opened Records
  import opened Tables
  import opened TableFacts

  // ------------------------------------------------------------ orders

  /** Python's <= on str values, with None placed before every name. */
  predicate OptLe(a: Option<string>, b: Option<string>)
  {
    a.None? || (b.Some? && LexLe(a.value, b.value))
  }

  lemma OptLeProperties()
    ensures forall a, b :: OptLe(a, b) || OptLe(b, a)
    ensures forall a, b :: OptLe(a, b) && OptLe(b, a) ==> a == b
    ensures forall a, b, c :: OptLe(a, b) && OptLe(b, c) ==> OptLe(a, c)
  {
    forall a: Option<string>, b: Option<string> ensures OptLe(a, b) || OptLe(b, a) {
      if a.Some? && b.Some? { LexLeTotal(a.value, b.value); }
    }
    forall a: Option<string>, b: Option<string> | OptLe(a, b) && OptLe(b, a) ensures a == b {
      if a.Some? && b.Some? { LexLeAntisymmetric(a.value, b.value); }
    }
    forall a: Option<string>, b: Option<string>, c: Option<string> | OptLe(a, b) && OptLe(b, c) ensures OptLe(a, c) {
      if a.Some? && b.Some? && c.Some? { LexLeTransitive(a.value, b.value, c.value); }
    }
  }

  /** The key of the sort before the type scan: the topic name alone. */
  predicate ByTopic(x: Endpoint, y: Endpoint)
  {
    OptLe(x.topic, y.topic)
  }

  lemma ByTopicIsPreorder()
    ensures TotalPreorder(ByTopic)
  {
    OptLeProperties();
  }

  /** export_participants sorts the participants by device address. */
  predicate ByAddress(p: Participant, q: Participant)
  {
    LexLe(p.device.ip, q.device.ip)
  }

  lemma ByAddressIsPreorder()
    ensures TotalPreorder(ByAddress)
  {
    forall p: Participant, q: Participant ensures ByAddress(p, q) || ByAddress(q, p) {
      LexLeTotal(p.device.ip, q.device.ip);
    }
    forall p: Participant, q: Participant, r: Participant | ByAddress(p, q) && ByAddress(q, r) ensures ByAddress(p, r) {
      LexLeTransitive(p.device.ip, q.device.ip, r.device.ip);
    }
  }

  /** The participants in the order export_participants lists them. */
  function ParticipantsListed(ps: seq<Participant>): (r: seq<Participant>)
    ensures multiset(r) == multiset(ps)
    ensures forall i, j :: 0 <= i < j < |r| ==> LexLe(r[i].device.ip, r[j].device.ip)
  {
    ByAddressIsPreorder();
    SortBy(ps, ByAddress)
  }

  function KindName(k: Kind): string
  {
    if k == Writer then "writer" else "reader"
  }

  /** Tuples compared element by element, as Python compares them, over names that may be None. */
  predicate KeyLe(xs: seq<Option<string>>, ys: seq<Option<string>>)
  {
    KeyLeFrom(xs, ys, 0)
  }

  /** The comparison from position i on, the first i elements being equal. */
  predicate KeyLeFrom(xs: seq<Option<string>>, ys: seq<Option<string>>, i: nat)
    decreases |xs| - i
  {
    i >= |xs| || (i < |ys| && ((OptLe(xs[i], ys[i]) && xs[i] != ys[i]) || (xs[i] == ys[i] && KeyLeFrom(xs, ys, i + 1))))
  }

  lemma KeyLeTotal(xs: seq<Option<string>>, ys: seq<Option<string>>)
    requires |xs| == |ys|
    ensures KeyLe(xs, ys) || KeyLe(ys, xs)
  {
    KeyLeTotalFrom(xs, ys, 0);
  }

  lemma {:induction false} KeyLeTotalFrom(xs: seq<Option<string>>, ys: seq<Option<string>>, i: nat)
    requires |xs| == |ys|
    ensures KeyLeFrom(xs, ys, i) || KeyLeFrom(ys, xs, i)
    decreases |xs| - i
  {
    OptLeProperties();
    if i < |xs| && xs[i] == ys[i] {
      KeyLeTotalFrom(xs, ys, i + 1);
    }
  }

  lemma KeyLeTransitive(xs: seq<Option<string>>, ys: seq<Option<string>>, zs: seq<Option<string>>)
    requires |xs| == |ys| == |zs|
    requires KeyLe(xs, ys) && KeyLe(ys, zs)
    ensures KeyLe(xs, zs)
  {
    KeyLeTransitiveFrom(xs, ys, zs, 0);
  }

  lemma {:induction false} KeyLeTransitiveFrom(xs: seq<Option<string>>, ys: seq<Option<string>>, zs: seq<Option<string>>, i: nat)
    requires |xs| == |ys| == |zs|
    requires KeyLeFrom(xs, ys, i) && KeyLeFrom(ys, zs, i)
    ensures KeyLeFrom(xs, zs, i)
    decreases |xs| - i
  {
    OptLeProperties();
    if i < |xs| && xs[i] == ys[i] == zs[i] {
      KeyLeTransitiveFrom(xs, ys, zs, i + 1);
    }
  }

  /** The key of export_entities' sort: topic, device address, participant key, kind. */
  function EntityKey(e: Endpoint): (k: seq<Option<string>>)
    ensures |k| == 4
  {
    [e.topic, Some(e.participant.device.ip), e.participant.key, Some(KindName(e.kind))]
  }

  predicate ByEntityKey(x: Endpoint, y: Endpoint)
  {
    KeyLe(EntityKey(x), EntityKey(y))
  }

  lemma ByEntityKeyIsPreorder()
    ensures TotalPreorder(ByEntityKey)
  {
    forall x: Endpoint, y: Endpoint ensures ByEntityKey(x, y) || ByEntityKey(y, x) {
      KeyLeTotal(EntityKey(x), EntityKey(y));
    }
    forall x: Endpoint, y: Endpoint, z: Endpoint | ByEntityKey(x, y) && ByEntityKey(y, z) ensures ByEntityKey(x, z) {
      KeyLeTransitive(EntityKey(x), EntityKey(y), EntityKey(z));
    }
  }

  /** The endpoints in the order export_entities lists them. */
  function EndpointsListed(es: seq<Endpoint>): (r: seq<Endpoint>)
    ensures multiset(r) == multiset(es)
    ensures forall i, j :: 0 <= i < j < |r| ==> KeyLe(EntityKey(r[i]), EntityKey(r[j]))
  {
    ByEntityKeyIsPreorder();
    SortBy(es, ByEntityKey)
  }

  /** One row of the topics sheet before sorting: the topic and its reader count. */
  datatype TopicRow = TopicRow(topic: Option<string>, readers: nat)

  /** export_topics sorts by (-readers, topic): most readers first, then by name. */
  predicate ByReaders(x: TopicRow, y: TopicRow)
  {
    x.readers > y.readers || (x.readers == y.readers && OptLe(x.topic, y.topic))
  }

  lemma ByReadersIsPreorder()
    ensures TotalPreorder(ByReaders)
  {
    OptLeProperties();
  }

  /**
   * The order `topics_table.items()` visits the table in: every key of the
   * table once (dictionaries keep insertion order, which the table's value
   * does not record, so the order is a parameter).
   */
  predicate ItemsOrder(topics: map<Option<string>, TopicEntry>, keys: seq<Option<string>>)
  {
    Distinct(keys) && (forall k :: k in keys ==> k in topics) && (forall k :: k in topics ==> k in keys)
  }

  /** The items as the sort sees them: each topic with its reader counter. */
  function TopicRows(topics: map<Option<string>, TopicEntry>, keys: seq<Option<string>>): seq<TopicRow>
    requires forall i :: 0 <= i < |keys| ==> keys[i] in topics
  {
    seq(|keys|, i requires 0 <= i < |keys| => TopicRow(keys[i], topics[keys[i]].readers))
  }

  /**
   * The topics in the order export_topics lists them: every topic of the
   * table exactly once, with its reader count, most readers first and then
   * by name.
   */
  function TopicsListed(topics: map<Option<string>, TopicEntry>, keys: seq<Option<string>>): (r: seq<TopicRow>)
    requires ItemsOrder(topics, keys)
    ensures multiset(r) == multiset(TopicRows(topics, keys))
    ensures forall k :: k in topics <==> exists i :: 0 <= i < |r| && r[i].topic == k
    ensures forall i, j :: 0 <= i < j < |r| ==> r[i].topic != r[j].topic
    ensures forall i :: 0 <= i < |r| ==> r[i].topic in topics && r[i].readers == topics[r[i].topic].readers
    ensures forall i, j :: 0 <= i < j < |r| ==> r[i].readers >= r[j].readers
    ensures forall i, j :: 0 <= i < j < |r| && r[i].readers == r[j].readers ==> OptLe(r[i].topic, r[j].topic)
  {
    ByReadersIsPreorder();
    var rows := TopicRows(topics, keys);
    var r := SortBy(rows, ByReaders);
    ListedRows(topics, keys, r);
    r
  }

  /** A permutation of the item rows holds each topic of the table once, with its own counter. */
  lemma ListedRows(topics: map<Option<string>, TopicEntry>, keys: seq<Option<string>>, r: seq<TopicRow>)
    requires ItemsOrder(topics, keys)
    requires multiset(r) == multiset(TopicRows(topics, keys))
    ensures forall k :: k in topics <==> exists i :: 0 <= i < |r| && r[i].topic == k
    ensures forall i, j :: 0 <= i < j < |r| ==> r[i].topic != r[j].topic
    ensures forall i :: 0 <= i < |r| ==> r[i].topic in topics && r[i].readers == topics[r[i].topic].readers
  {
    var rows := TopicRows(topics, keys);
    assert forall x :: x in r <==> x in rows by {
      assert forall x :: x in r <==> x in multiset(r);
      assert forall x :: x in rows <==> x in multiset(rows);
    }
    forall i | 0 <= i < |r| ensures r[i].topic in topics && r[i].readers == topics[r[i].topic].readers {
      assert r[i] in rows;
    }
    forall k | k in topics ensures exists i :: 0 <= i < |r| && r[i].topic == k {
      var n :| 0 <= n < |keys| && keys[n] == k;
      assert rows[n] in r;
      var i :| 0 <= i < |r| && r[i] == rows[n];
    }
    assert Distinct(rows) by {
      forall i, j | 0 <= i < j < |rows| ensures rows[i] != rows[j] {
        assert rows[i].topic == keys[i] && rows[j].topic == keys[j];
      }
    }
    DistinctMultiset(rows);
    MultisetDistinct(r);
  }

  /**
   * On the table extract_tables built, the topic sheet lists exactly the
   * topic names of the endpoints, each with its number of readers.
   */
  lemma TopicSheet(es: seq<Endpoint>, keys: seq<Option<string>>)
    requires Build(EmptyTables, es).1 == Pass
    requires ItemsOrder(Build(EmptyTables, es).0.topics, keys)
    ensures var r := TopicsListed(Build(EmptyTables, es).0.topics, keys);
      (forall e :: e in es ==> exists i :: 0 <= i < |r| && r[i].topic == e.topic)
      && (forall i :: 0 <= i < |r| ==> exists e :: e in es && e.topic == r[i].topic)
      && forall i :: 0 <= i < |r| ==> r[i].readers == Count(es, OnSide(r[i].topic, Reader))
  {
    var r := TopicsListed(Build(EmptyTables, es).0.topics, keys);
    RowsOfBuiltTable(es, r);
  }

  /** Rows that list the built topic table, each topic with its reader count, as endpoint facts. */
  lemma RowsOfBuiltTable(es: seq<Endpoint>, r: seq<TopicRow>)
    requires Build(EmptyTables, es).1 == Pass
    requires var topics := Build(EmptyTables, es).0.topics;
      (forall k :: k in topics ==> exists i :: 0 <= i < |r| && r[i].topic == k)
      && forall i :: 0 <= i < |r| ==> r[i].topic in topics && r[i].readers == topics[r[i].topic].readers
    ensures forall e :: e in es ==> exists i :: 0 <= i < |r| && r[i].topic == e.topic
    ensures forall i :: 0 <= i < |r| ==> (exists e :: e in es && e.topic == r[i].topic) && r[i].readers == Count(es, OnSide(r[i].topic, Reader))
  {
    forall e | e in es ensures exists i :: 0 <= i < |r| && r[i].topic == e.topic {
      TopicCounts(es, e.topic);
    }
    forall i | 0 <= i < |r|
      ensures (exists e :: e in es && e.topic == r[i].topic) && r[i].readers == Count(es, OnSide(r[i].topic, Reader))
    {
      TopicCounts(es, r[i].topic);
    }
  }

  /** The "reliable" column of the topics sheet: "RELIABLE" only when both sides are. */
  function CombinedLevel(entry: TopicEntry): Level
  {
    if entry.writerLevel == Reliable && entry.readerLevel == Reliable then Reliable else BestEffort
  }

  /** A topic is listed as RELIABLE iff it has a reliable writer and a reliable reader. */
  lemma CombinedLevelMeaning(es: seq<Endpoint>, k: Option<string>)
    requires Build(EmptyTables, es).1 == Pass
    requires k in Build(EmptyTables, es).0.topics
    ensures CombinedLevel(Build(EmptyTables, es).0.topics[k]) == Reliable
        <==> (exists e :: e in es && e.topic == k && e.kind == Writer && e.reliable == Some(ReliableQos))
             && (exists e :: e in es && e.topic == k && e.kind == Reader && e.reliable == Some(ReliableQos))
  {
    TopicLevels(es, k, Writer);
    TopicLevels(es, k, Reader);
  }

  // ------------------------------------------------------------ orphans

  /** x is a counterpart of e: same topic name (None included), opposite kind. */
  predicate Counterpart(x: Endpoint, e: Endpoint)
  {
    x.topic == e.topic && ((e.kind == Writer && x.kind == Reader) || (e.kind == Reader && x.kind == Writer))
  }

  /** No endpoint of the domain answers e. */
  predicate Alone(es: seq<Endpoint>, e: Endpoint)
  {
    forall j :: 0 <= j < |es| ==> !Counterpart(es[j], e)
  }

  /** e is an unanswered endpoint of this kind on topic k. */
  predicate Orphan(all: seq<Endpoint>, kind: Kind, k: Option<string>, e: Endpoint)
  {
    e.kind == kind && e.topic == k && Alone(all, e)
  }

  /** The labels (name, or key when there is none) of the owners of the orphans of seen, in order. */
  function OrphanLabels(all: seq<Endpoint>, seen: seq<Endpoint>, kind: Kind, k: Option<string>): (r: seq<Option<string>>)
    ensures |r| <= |seen|
  {
    if seen == [] then []
    else
      var e := seen[|seen| - 1];
      OrphanLabels(all, seen[..|seen| - 1], kind, k) + (if Orphan(all, kind, k, e) then [Label(e.participant)] else [])
  }

  /** The orphan table of one kind after the outer loop has seen the endpoints of seen. */
  function OrphanMap(all: seq<Endpoint>, seen: seq<Endpoint>, kind: Kind): map<Option<string>, seq<Option<string>>>
  {
    if seen == [] then map[]
    else
      var e := seen[|seen| - 1];
      var table := OrphanMap(all, seen[..|seen| - 1], kind);
      if Orphan(all, kind, e.topic, e) then Noted(table, e.topic, Label(e.participant)) else table
  }

  /** What an orphan table holds: each topic with such endpoints, with their owners' labels in order. */
  ghost predicate OrphanTable(table: map<Option<string>, seq<Option<string>>>, all: seq<Endpoint>, seen: seq<Endpoint>, kind: Kind)
  {
    (forall k :: k in table <==> exists e :: e in seen && Orphan(all, kind, k, e))
    && (forall k :: k in table ==> table[k] == OrphanLabels(all, seen, kind, k))
  }

  /** Whether a counterpart exists, as the inner loop decides it. */
  method HasCounterpart(es: seq<Endpoint>, e: Endpoint) returns (found: bool)
    ensures found <==> !Alone(es, e)
  {
    found := false;
    var j := 0;
    while j < |es|
      invariant 0 <= j <= |es|
      invariant !found ==> forall j' :: 0 <= j' < j ==> !Counterpart(es[j'], e)
      invariant found ==> !Alone(es, e)
    {
      if es[j].topic == e.topic {
        if (e.kind == Writer && es[j].kind == Reader) || (e.kind == Reader && es[j].kind == Writer) {
          found := true;
          break;
        }
      }
      j := j + 1;
    }
  }

  /** The table with name appended to the list under k, which starts empty. */
  function Noted(table: map<Option<string>, seq<Option<string>>>, k: Option<string>, name: Option<string>): (r: map<Option<string>, seq<Option<string>>>)
    ensures r.Keys == table.Keys + {k}
    ensures r[k] == (if k in table then table[k] else []) + [name]
    ensures forall k' :: k' in table && k' != k ==> r[k'] == table[k']
  {
    table[k := (if k in table then table[k] else []) + [name]]
  }

  /**
   * The writers_without_readers and readers_without_writers dictionaries:
   * one entry per endpoint that no endpoint of the domain answers, under
   * its topic, labelled with its participant's name or key.
   */
  method FindOrphans(es: seq<Endpoint>) returns (writersAlone: map<Option<string>, seq<Option<string>>>,
                                                  readersAlone: map<Option<string>, seq<Option<string>>>)
    ensures writersAlone == OrphanMap(es, es, Writer) && readersAlone == OrphanMap(es, es, Reader)
    ensures OrphanTable(writersAlone, es, es, Writer) && OrphanTable(readersAlone, es, es, Reader)
  {
    writersAlone, readersAlone := map[], map[];
    var i := 0;
    while i < |es|
      invariant 0 <= i <= |es|
      invariant writersAlone == OrphanMap(es, es[..i], Writer)
      invariant readersAlone == OrphanMap(es, es[..i], Reader)
    {
      var e := es[i];
      var name := e.participant.name;
      if name == None {
        name := e.participant.key;
      }
      var found := HasCounterpart(es, e);
      if !found {
        if e.kind == Writer {
          if e.topic !in writersAlone {
            writersAlone := writersAlone[e.topic := []];
          }
          writersAlone := writersAlone[e.topic := writersAlone[e.topic] + [name]];
        }
        if e.kind == Reader {
          if e.topic !in readersAlone {
            readersAlone := readersAlone[e.topic := []];
          }
          readersAlone := readersAlone[e.topic := readersAlone[e.topic] + [name]];
        }
      }
      assert es[..i + 1][..i] == es[..i];
      i := i + 1;
    }
    assert es[..i] == es;
    OrphanMapMeaning(es, es, Writer);
    OrphanMapMeaning(es, es, Reader);
  }

  /** The table the loop builds holds exactly the orphans of seen, labelled in order. */
  lemma {:induction false} OrphanMapMeaning(all: seq<Endpoint>, seen: seq<Endpoint>, kind: Kind)
    ensures OrphanTable(OrphanMap(all, seen, kind), all, seen, kind)
  {
    if seen != [] {
      var prefix, e := seen[..|seen| - 1], seen[|seen| - 1];
      OrphanMapMeaning(all, prefix, kind);
      var before, after := OrphanMap(all, prefix, kind), OrphanMap(all, seen, kind);
      assert seen == prefix + [e];
      forall k ensures k in after <==> exists x :: x in seen && Orphan(all, kind, k, x) {
        if k in after && k !in before {
          assert e in seen;
        }
      }
      forall k | k in after ensures after[k] == OrphanLabels(all, seen, kind, k) {
        if k !in before {
          OrphanLabelsEmpty(all, prefix, kind, k);
        }
      }
    }
  }

  lemma {:induction false} OrphanLabelsEmpty(all: seq<Endpoint>, seen: seq<Endpoint>, kind: Kind, k: Option<string>)
    requires forall e :: e in seen ==> !Orphan(all, kind, k, e)
    ensures OrphanLabels(all, seen, kind, k) == []
  {
    if seen != [] {
      OrphanLabelsEmpty(all, seen[..|seen| - 1], kind, k);
    }
  }

  // ------------------------------------------------------------ reliability mismatch

  /**
   * The topics with reliable writers and best-effort readers but no
   * reliable reader, picked from the reliable-writer names one at a time.
   */
  method MismatchedTopics(reliableWriters: set<string>, besteffortReaders: set<string>, reliableReaders: set<string>)
    returns (r: set<string>)
    ensures forall t :: t in r <==> t in reliableWriters && t in besteffortReaders && t !in reliableReaders
  {
    r := {};
    var pending := reliableWriters;
    while pending != {}
      invariant pending <= reliableWriters
      invariant forall t :: t in r <==> t in reliableWriters - pending && t in besteffortReaders && t !in reliableReaders
      decreases |pending|
    {
      var t :| t in pending;
      if t in besteffortReaders && !(t in reliableReaders) {
        r := r + {t};
      }
      pending := pending - {t};
    }
  }

  /** A topic is reported iff it has a reliable writer and a best-effort reader but no reliable reader. */
  lemma MismatchMeaning(es: seq<Endpoint>, r: set<string>, name: string)
    requires Build(EmptyTables, es).1 == Pass
    requires var t := Build(EmptyTables, es).0;
      forall n :: n in r <==> n in t.reliableWriters && n in t.besteffortReaders && n !in t.reliableReaders
    ensures name in r <==> (name != ""
      && (exists e :: e in es && e.topic == Some(name) && e.kind == Writer && e.reliable == Some(ReliableQos))
      && (exists e :: e in es && e.topic == Some(name) && e.kind == Reader && e.reliable == Some(BestEffortQos))
      && !(exists e :: e in es && e.topic == Some(name) && e.kind == Reader && e.reliable == Some(ReliableQos)))
  {
    ReliabilitySets(es, name);
  }

  // ------------------------------------------------------------ several type names per topic

  /** Endpoints of one topic name sit next to each other. */
  predicate Contiguous(s: seq<Endpoint>)
  {
    forall i, j, k :: 0 <= i < j < k < |s| && s[i].topic == s[k].topic ==> s[j].topic == s[i].topic
  }

  /** Neighbours k and k + 1 share the topic name but not the type name. */
  predicate Change(s: seq<Endpoint>, k: nat)
    requires k + 1 < |s|
  {
    s[k].topic == s[k + 1].topic && s[k].typeName != s[k + 1].typeName
  }

  /** The type names used on topic t by the endpoints at the first n positions. */
  function TypesUpTo(s: seq<Endpoint>, t: Option<string>, n: nat): set<Option<string>>
  {
    set j | 0 <= j < n && j < |s| && s[j].topic == t :: s[j].typeName
  }

  /** The type names the endpoints of topic t use. */
  function TypesOf(es: seq<Endpoint>, t: Option<string>): set<Option<string>>
  {
    set e | e in es && e.topic == t :: e.typeName
  }

  /** Two endpoints of topic t disagree on the type name. */
  predicate SeveralTypes(es: seq<Endpoint>, t: Option<string>)
  {
    exists x, y :: x in es && y in es && x.topic == t && y.topic == t && x.typeName != y.typeName
  }

  /** topics_with_multiple_types after the first n neighbour pairs of s have been compared. */
  function ScanTypes(s: seq<Endpoint>, n: nat): map<Option<string>, set<Option<string>>>
    requires n == 0 || n < |s|
  {
    if n == 0 then map[]
    else
      var m, k := ScanTypes(s, n - 1), n - 1;
      var t := s[k].topic;
      if Change(s, k) then
        var seeded := if t !in m then m[t := {s[k].typeName}] else m;
        seeded[t := seeded[t] + {s[k + 1].typeName}]
      else m
  }

  /** The loop over neighbouring pairs of the endpoints sorted by topic name. */
  method AdjacentTypes(s: seq<Endpoint>) returns (m: map<Option<string>, set<Option<string>>>)
    ensures m == ScanTypes(s, if |s| == 0 then 0 else |s| - 1)
  {
    m := map[];
    var i := 0;
    while i + 1 < |s|
      invariant i == 0 || i < |s|
      invariant m == ScanTypes(s, i)
    {
      if s[i].topic == s[i + 1].topic {
        if s[i].typeName != s[i + 1].typeName {
          if s[i].topic !in m {
            ghost var m0 := m;
            m := m[s[i].topic := {}];
            m := m[s[i].topic := m[s[i].topic] + {s[i].typeName}];
            assert m[s[i].topic] == {s[i].typeName};
            assert m == m0[s[i].topic := {s[i].typeName}];
          }
          m := m[s[i].topic := m[s[i].topic] + {s[i + 1].typeName}];
        }
      }
      i := i + 1;
    }
  }

  /** In a contiguous run with no change, every endpoint uses the same type name. */
  lemma {:induction false} Uniform(s: seq<Endpoint>, j: nat, i: nat)
    requires Contiguous(s) && j <= i < |s| && s[j].topic == s[i].topic
    requires forall k :: j <= k < i ==> !Change(s, k)
    ensures s[j].typeName == s[i].typeName
    decreases i - j
  {
    if j < i {
      assert s[j + 1].topic == s[j].topic by {
        if j + 1 < i {
          assert s[j].topic == s[i].topic;
        }
      }
      assert !Change(s, j);
      Uniform(s, j + 1, i);
    }
  }

  /** The keys of the scan are the topics where some neighbour pair changes type. */
  lemma {:induction false} ScanKeys(s: seq<Endpoint>, n: nat)
    requires n == 0 || n < |s|
    ensures forall t :: t in ScanTypes(s, n) <==> exists k :: 0 <= k < n && Change(s, k) && s[k].topic == t
  {
    if n > 0 {
      ScanKeys(s, n - 1);
    }
  }

  /** One more position adds its type name to its own topic only. */
  lemma TypesExtend(s: seq<Endpoint>, t: Option<string>, n: nat)
    requires n < |s|
    ensures TypesUpTo(s, t, n + 1) == TypesUpTo(s, t, n) + (if s[n].topic == t then {s[n].typeName} else {})
  {
    if s[n].topic == t {
      assert s[n].typeName in TypesUpTo(s, t, n + 1);
    }
  }

  /** At the first change on its topic, the topic has used exactly the two type names of the pair. */
  lemma FirstChange(s: seq<Endpoint>, k: nat)
    requires Contiguous(s) && k + 1 < |s| && Change(s, k)
    requires forall c :: 0 <= c < k && Change(s, c) ==> s[c].topic != s[k].topic
    ensures TypesUpTo(s, s[k].topic, k + 2) == {s[k].typeName, s[k + 1].typeName}
  {
    var t := s[k].topic;
    forall j | 0 <= j <= k && s[j].topic == t ensures s[j].typeName == s[k].typeName {
      forall c | j <= c < k ensures !Change(s, c) {
        if j < c {
          assert s[j].topic == s[k].topic;
        }
      }
      Uniform(s, j, k);
    }
    assert s[k].typeName in TypesUpTo(s, t, k + 2);
    assert s[k + 1].typeName in TypesUpTo(s, t, k + 2);
  }

  /** A topic that changed type earlier still owns the position before any later endpoint of it. */
  lemma StillOnTopic(s: seq<Endpoint>, c: nat, k: nat)
    requires Contiguous(s) && c < k && k + 1 < |s|
    requires s[c + 1].topic == s[c].topic && s[k + 1].topic == s[c].topic
    ensures s[k].topic == s[c].topic
  {
    if c + 1 < k {
      assert s[c + 1].topic == s[k + 1].topic;
    }
  }

  /** Over contiguous endpoints each key of the scan holds all the type names seen so far on it. */
  lemma {:induction false} ScanValues(s: seq<Endpoint>, n: nat)
    requires n == 0 || n < |s|
    requires Contiguous(s)
    ensures forall t :: t in ScanTypes(s, n) ==> ScanTypes(s, n)[t] == TypesUpTo(s, t, n + 1)
  {
    if n > 0 {
      ScanValues(s, n - 1);
      ScanKeys(s, n - 1);
      forall t | t in ScanTypes(s, n) ensures ScanTypes(s, n)[t] == TypesUpTo(s, t, n + 1) {
        ScanValueAt(s, n, t);
      }
    }
  }

  /** The step of ScanValues for one topic. */
  lemma ScanValueAt(s: seq<Endpoint>, n: nat, t: Option<string>)
    requires 0 < n < |s| && Contiguous(s)
    requires t in ScanTypes(s, n - 1) ==> ScanTypes(s, n - 1)[t] == TypesUpTo(s, t, n)
    requires t in ScanTypes(s, n - 1) ==> exists c :: 0 <= c < n - 1 && Change(s, c) && s[c].topic == t
    requires forall c :: 0 <= c < n - 1 && Change(s, c) ==> s[c].topic in ScanTypes(s, n - 1)
    requires t in ScanTypes(s, n)
    ensures ScanTypes(s, n)[t] == TypesUpTo(s, t, n + 1)
  {
    var k, m := n - 1, ScanTypes(s, n - 1);
    if Change(s, k) && t == s[k].topic && t !in m {
      FirstChange(s, k);
    }
    if !(Change(s, k) && t == s[k].topic) && s[n].topic == t && t in m {
      var c :| 0 <= c < k && Change(s, c) && s[c].topic == t;
      StillOnTopic(s, c, k);
    }
    ScanValueCases(s, n, t);
  }

  /** The step of ScanValues for one topic, given what contiguity says about it. */
  lemma ScanValueCases(s: seq<Endpoint>, n: nat, t: Option<string>)
    requires 0 < n < |s| && t in ScanTypes(s, n)
    requires t in ScanTypes(s, n - 1) ==> ScanTypes(s, n - 1)[t] == TypesUpTo(s, t, n)
    requires Change(s, n - 1) && t == s[n - 1].topic && t !in ScanTypes(s, n - 1)
             ==> TypesUpTo(s, t, n + 1) == {s[n - 1].typeName, s[n].typeName}
    requires !(Change(s, n - 1) && t == s[n - 1].topic) && s[n].topic == t && t in ScanTypes(s, n - 1)
             ==> s[n - 1].topic == t
    ensures ScanTypes(s, n)[t] == TypesUpTo(s, t, n + 1)
  {
    var k, m := n - 1, ScanTypes(s, n - 1);
    TypesExtend(s, t, n);
    if !(Change(s, k) && t == s[k].topic) {
      assert t in m && ScanTypes(s, n)[t] == m[t];
      if s[n].topic == t {
        assert s[k].typeName in TypesUpTo(s, t, n);
      }
    }
  }

  /** Where the scan finds a key, the endpoints of that topic disagree on the type name. */
  lemma ScanFindsSeveral(s: seq<Endpoint>, n: nat, t: Option<string>)
    requires n < |s| && Contiguous(s)
    requires t in ScanTypes(s, n)
    ensures SeveralTypes(s, t)
  {
    ScanKeys(s, n);
    var c :| 0 <= c < n && Change(s, c) && s[c].topic == t;
    assert s[c] in s && s[c + 1] in s;
  }

  /** Where the endpoints of a topic disagree, some neighbour pair changes type on it. */
  lemma SeveralHasChange(s: seq<Endpoint>, t: Option<string>)
    requires Contiguous(s) && SeveralTypes(s, t)
    ensures exists c :: 0 <= c < |s| - 1 && Change(s, c) && s[c].topic == t
  {
    var a, b := TwoPositions(s, t);
    if forall c :: 0 <= c < |s| - 1 && Change(s, c) ==> s[c].topic != t {
      NoChangeUniform(s, a, b, t);
    }
  }

  /** Positions of two endpoints of topic t with different type names, the earlier one first. */
  lemma TwoPositions(s: seq<Endpoint>, t: Option<string>) returns (a: nat, b: nat)
    requires SeveralTypes(s, t)
    ensures a < b < |s| && s[a].topic == t && s[b].topic == t && s[a].typeName != s[b].typeName
  {
    var x, y :| x in s && y in s && x.topic == t && y.topic == t && x.typeName != y.typeName;
    var i :| 0 <= i < |s| && s[i] == x;
    var j :| 0 <= j < |s| && s[j] == y;
    if i < j {
      a, b := i, j;
    } else {
      a, b := j, i;
    }
  }

  /** Without a change on topic t, all its endpoints share one type name. */
  lemma NoChangeUniform(s: seq<Endpoint>, lo: nat, hi: nat, t: Option<string>)
    requires Contiguous(s) && lo <= hi < |s| && s[lo].topic == t && s[hi].topic == t
    requires forall c :: 0 <= c < |s| - 1 && Change(s, c) ==> s[c].topic != t
    ensures s[lo].typeName == s[hi].typeName
  {
    forall c | lo <= c < hi ensures !Change(s, c) {
      if lo < c {
        assert s[lo].topic == s[hi].topic;
      }
    }
    Uniform(s, lo, hi);
  }

  /** Positions and members name the same type names once every position is seen. */
  lemma TypesUpToAll(s: seq<Endpoint>, t: Option<string>, n: nat)
    requires n >= |s|
    ensures TypesUpTo(s, t, n) == TypesOf(s, t)
  {
    forall y | y in TypesOf(s, t) ensures y in TypesUpTo(s, t, n) {
      var e :| e in s && e.topic == t && e.typeName == y;
      var j :| 0 <= j < |s| && s[j] == e;
    }
  }

  /** Over contiguous endpoints the finished scan reports exactly the topics with several type names, with all of them. */
  lemma ScanMeaning(s: seq<Endpoint>)
    requires Contiguous(s)
    ensures var m := ScanTypes(s, if |s| == 0 then 0 else |s| - 1);
      forall t :: (t in m <==> SeveralTypes(s, t)) && (t in m ==> m[t] == TypesOf(s, t))
  {
    var n := if |s| == 0 then 0 else |s| - 1;
    ScanKeys(s, n);
    ScanValues(s, n);
    forall t ensures (t in ScanTypes(s, n) <==> SeveralTypes(s, t)) && (t in ScanTypes(s, n) ==> ScanTypes(s, n)[t] == TypesOf(s, t)) {
      TypesUpToAll(s, t, n + 1);
      if t in ScanTypes(s, n) {
        ScanFindsSeveral(s, n, t);
      } else if SeveralTypes(s, t) {
        SeveralHasChange(s, t);
      }
    }
  }

  /** A sort by topic name leaves the endpoints of one topic together. */
  lemma SortedIsContiguous(s: seq<Endpoint>)
    requires SortedBy(s, ByTopic)
    ensures Contiguous(s)
  {
    OptLeProperties();
  }

  /** The type names per topic depend only on which endpoints there are, not on their order. */
  lemma TopicTypeNamesIgnoreOrder(a: seq<Endpoint>, b: seq<Endpoint>, t: Option<string>)
    requires multiset(a) == multiset(b)
    ensures TypesOf(a, t) == TypesOf(b, t)
    ensures SeveralTypes(a, t) <==> SeveralTypes(b, t)
  {
    assert forall e :: e in a <==> e in b by {
      forall e ensures e in a <==> e in b {
        assert e in a <==> e in multiset(a);
        assert e in b <==> e in multiset(b);
      }
    }
  }

  /**
   * topics_with_multiple_types: sorting by topic name fails when two or
   * more endpoints include one without a topic; otherwise each topic
   * whose endpoints disagree on the type name, with every type name used.
   */
  method MultipleTypes(es: seq<Endpoint>) returns (r: Result<map<Option<string>, set<Option<string>>>, Fault>)
    ensures r.Failure? <==> |es| >= 2 && exists e :: e in es && e.topic == None
    ensures r.Failure? ==> r.error == Unorderable
    ensures r.Success? ==> forall t :: (t in r.value <==> SeveralTypes(es, t)) && (t in r.value ==> r.value[t] == TypesOf(es, t))
  {
    if |es| >= 2 && exists e :: e in es && e.topic == None {
      return Failure(Unorderable);
    }
    ByTopicIsPreorder();
    var sorted := SortBy(es, ByTopic);
    var m := AdjacentTypes(sorted);
    SortedIsContiguous(sorted);
    ScanMeaning(sorted);
    forall t ensures (t in m <==> SeveralTypes(es, t)) && (t in m ==> m[t] == TypesOf(es, t)) {
      TopicTypeNamesIgnoreOrder(sorted, es, t);
    }
    r := Success(m);
  }

  // ------------------------------------------------------------ totals

  /** The counts at the head of the Analysis sheet. */
  datatype Totals = Totals(devices: nat, participants: nat, types: nat, topics: nat, readers: nat, writers: nat)

  function OfKind(kind: Kind): Endpoint -> bool
  {
    (e: Endpoint) => e.kind == kind
  }

  /** The distinct non-empty topic names of the domain. */
  function TopicNames(es: seq<Endpoint>): set<string>
  {
    set e | e in es && Truthy(e.topic) :: e.topic.value
  }

  function CountTotals(t: TablesValue, participants: seq<Participant>, es: seq<Endpoint>): Totals
  {
    Totals(|t.devices|, |participants|, |t.types|, |TopicNames(es)|, Count(es, OfKind(Reader)), Count(es, OfKind(Writer)))
  }

  /** Every endpoint is counted once, as a reader or as a writer. */
  lemma {:induction false} ReadersAndWriters(es: seq<Endpoint>)
    ensures Count(es, OfKind(Reader)) + Count(es, OfKind(Writer)) == |es|
  {
    if es != [] {
      ReadersAndWriters(es[..|es| - 1]);
    }
  }

  /** The topic count is the number of non-empty topic names among the keys of the topics table. */
  lemma TopicNamesAreTableKeys(es: seq<Endpoint>)
    requires Build(EmptyTables, es).1 == Pass
    ensures var topics := Build(EmptyTables, es).0.topics;
      TopicNames(es) == set k | k in topics && Truthy(k) :: k.value
  {
    var topics := Build(EmptyTables, es).0.topics;
    forall n | n in TopicNames(es) ensures n in set k | k in topics && Truthy(k) :: k.value {
      var e :| e in es && Truthy(e.topic) && e.topic.value == n;
      TopicCounts(es, e.topic);
    }
    forall n | n in (set k | k in topics && Truthy(k) :: k.value) ensures n in TopicNames(es) {
      var k :| k in topics && Truthy(k) && k.value == n;
      TopicCounts(es, k);
    }
  }

  /** The type count is the number of distinct type names among the endpoints. */
  lemma TypeCountIsDistinctTypes(es: seq<Endpoint>)
    requires Build(EmptyTables, es).1 == Pass
    ensures Build(EmptyTables, es).0.types.Keys == set e | e in es :: e.typeName
  {
    var types := Build(EmptyTables, es).0.types;
    forall ty ensures ty in types <==> ty in set e | e in es :: e.typeName {
      TypesAreMaxima(es, ty);
    }
  }

  /**
   * Over the tables of a domain's endpoints: readers and writers add up to
   * the endpoints, the topics counted are the named keys of the topics
   * table, and the types counted are the distinct type names in use.
   */
  lemma TotalsMeaning(participants: seq<Participant>, es: seq<Endpoint>)
    requires Build(EmptyTables, es).1 == Pass
    ensures var t := Build(EmptyTables, es).0;
      var r := CountTotals(t, participants, es);
      r.readers + r.writers == |es|
      && r.topics == |set k | k in t.topics && Truthy(k) :: k.value|
      && r.types == |set e | e in es :: e.typeName|
      && r.participants == |participants| && r.devices == |t.devices|
  {
    ReadersAndWriters(es);
    TopicNamesAreTableKeys(es);
    TypeCountIsDistinctTypes(es);
  }
}
