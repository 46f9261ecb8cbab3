/**
 * What the tables built by extract_tables mean, stated against the list of
 * endpoints alone: counts, maxima, upgrades and sets, and their
 * independence from the order in which the endpoints were filed.
 */
module TableFacts {
  import opened Wrappers
  import opened Text
  import opened Seqs
  import opened Records
  import opened Tables

  /** A serialized size that int() accepts, or the "" that is skipped. */
  predicate SizeReadable(e: Endpoint)
  {
    e.maxSize == "" || ParseDecimal(e.maxSize).Some?
  }

  /** The endpoint reports the serialized size n. */
  predicate Reports(e: Endpoint, n: nat)
  {
    e.maxSize != "" && ParseDecimal(e.maxSize) == Some(n)
  }

  function OnTopic(k: Option<string>): Endpoint -> bool
  {
    (e: Endpoint) => e.topic == k
  }

  function OnSide(k: Option<string>, kind: Kind): Endpoint -> bool
  {
    (e: Endpoint) => e.topic == k && e.kind == kind
  }

  function AtCell(ip: string, app: Option<string>, k: Option<string>, kind: Kind): Endpoint -> bool
  {
    (e: Endpoint) => e.participant.device.ip == ip && Label(e.participant) == app && e.topic == k && e.kind == kind
  }

  function Side(c: Counts, kind: Kind): nat
  {
    if kind == Writer then c.writers else c.readers
  }

  /** The counter of one devices_table cell, 0 where the cell was never created. */
  function Cell(devices: map<string, DeviceEntry>, ip: string, app: Option<string>, k: Option<string>, kind: Kind): nat
  {
    if ip in devices && app in devices[ip].apps && k in devices[ip].apps[app] then Side(devices[ip].apps[app][k], kind) else 0
  }

  // ------------------------------------------------------------ unfolding

  /** Each table after filing es, the exception aside: every table is updated from its own previous value. */
  function DevicesAfter(es: seq<Endpoint>): map<string, DeviceEntry>
  {
    if es == [] then map[] else CountOnDevice(DevicesAfter(es[..|es| - 1]), es[|es| - 1])
  }

  function TopicsAfter(es: seq<Endpoint>): map<Option<string>, TopicEntry>
  {
    if es == [] then map[] else AddToTopic(TopicsAfter(es[..|es| - 1]), es[|es| - 1])
  }

  function TypesAfter(es: seq<Endpoint>): map<Option<string>, nat>
  {
    if es == [] then map[] else SizeType(TypesAfter(es[..|es| - 1]), es[|es| - 1])
  }

  function FiledAfter(es: seq<Endpoint>, kind: Kind, qos: string): set<string>
  {
    if es == [] then {} else FileIf(FiledAfter(es[..|es| - 1], kind, qos), es[|es| - 1], kind, qos)
  }

  /** A loop that passes leaves each table as its own update sequence does. */
  lemma {:induction false} BuildParts(es: seq<Endpoint>)
    requires Build(EmptyTables, es).1 == Pass
    ensures Build(EmptyTables, es).0 == TablesValue(
      DevicesAfter(es), TopicsAfter(es), TypesAfter(es),
      FiledAfter(es, Writer, ReliableQos), FiledAfter(es, Writer, BestEffortQos),
      FiledAfter(es, Reader, ReliableQos), FiledAfter(es, Reader, BestEffortQos))
  {
    if es != [] {
      BuildParts(es[..|es| - 1]);
    }
  }

  // ------------------------------------------------------------ facts

  /** The loop raises iff some endpoint reports a size int() rejects. */
  lemma {:induction false} BuildPasses(t: TablesValue, es: seq<Endpoint>)
    ensures Build(t, es).1 == Pass <==> forall e :: e in es ==> SizeReadable(e)
  {
    if es != [] {
      var init, last := es[..|es| - 1], es[|es| - 1];
      assert es == init + [last];
      BuildPasses(t, init);
      assert Build(t, es).1 == if Build(t, init).1.Fail? then Build(t, init).1 else SizeOutcome(last);
      assert SizeOutcome(last) == Pass <==> SizeReadable(last);
      assert (forall e :: e in es ==> SizeReadable(e)) <==> (forall e :: e in init ==> SizeReadable(e)) && SizeReadable(last);
    }
  }

  /**
   * types_table holds every type name seen, each mapped to the largest size
   * reported for it, or 0 when none was: an unreported size never lowers it.
   */
  lemma TypesAreMaxima(es: seq<Endpoint>, ty: Option<string>)
    requires Build(EmptyTables, es).1 == Pass
    ensures var types := Build(EmptyTables, es).0.types;
      (ty in types <==> exists e :: e in es && e.typeName == ty)
      && (ty in types ==>
            (forall e, n :: e in es && e.typeName == ty && Reports(e, n) ==> n <= types[ty])
            && (types[ty] == 0 || exists e :: e in es && e.typeName == ty && Reports(e, types[ty])))
  {
    BuildParts(es);
    TypesAfterMaxima(es, ty);
  }

  lemma {:induction false} TypesAfterMaxima(es: seq<Endpoint>, ty: Option<string>)
    ensures var types := TypesAfter(es);
      (ty in types <==> exists e :: e in es && e.typeName == ty)
      && (ty in types ==>
            (forall e, n :: e in es && e.typeName == ty && Reports(e, n) ==> n <= types[ty])
            && (types[ty] == 0 || exists e :: e in es && e.typeName == ty && Reports(e, types[ty])))
  {
    if es != [] {
      var init, last := es[..|es| - 1], es[|es| - 1];
      assert es == init + [last];
      TypesAfterMaxima(init, ty);
      SizeTypeAt(TypesAfter(init), last, ty);
    }
  }

  lemma SizeTypeAt(types: map<Option<string>, nat>, e: Endpoint, ty: Option<string>)
    ensures var r := SizeType(types, e);
      (ty in r <==> ty in types || ty == e.typeName)
      && (ty != e.typeName && ty in types ==> r[ty] == types[ty])
      && (ty == e.typeName ==>
            var base := if ty in types then types[ty] else 0;
            base <= r[ty] && (forall n :: Reports(e, n) ==> n <= r[ty]) && (r[ty] == base || Reports(e, r[ty])))
  {
  }

  /**
   * topics_table has an entry for every topic name seen (None included),
   * whose counters are the numbers of writers and of readers on it.
   */
  lemma TopicCounts(es: seq<Endpoint>, k: Option<string>)
    requires Build(EmptyTables, es).1 == Pass
    ensures var topics := Build(EmptyTables, es).0.topics;
      (k in topics <==> exists e :: e in es && e.topic == k)
      && (k in topics ==>
            topics[k].writers == Count(es, OnSide(k, Writer))
            && topics[k].readers == Count(es, OnSide(k, Reader)))
      && (k !in topics ==> Count(es, OnSide(k, Writer)) == 0 && Count(es, OnSide(k, Reader)) == 0)
  {
    BuildParts(es);
    TopicsAfterCounts(es, k);
  }

  lemma {:induction false} TopicsAfterCounts(es: seq<Endpoint>, k: Option<string>)
    ensures var topics := TopicsAfter(es);
      (k in topics <==> exists e :: e in es && e.topic == k)
      && (k in topics ==>
            topics[k].writers == Count(es, OnSide(k, Writer))
            && topics[k].readers == Count(es, OnSide(k, Reader)))
      && (k !in topics ==> Count(es, OnSide(k, Writer)) == 0 && Count(es, OnSide(k, Reader)) == 0)
  {
    if es != [] {
      var init, last := es[..|es| - 1], es[|es| - 1];
      assert es == init + [last];
      TopicsAfterCounts(init, k);
      AddToTopicCounts(TopicsAfter(init), last, k);
      FilterSnoc(init, last, OnSide(k, Writer));
      FilterSnoc(init, last, OnSide(k, Reader));
    }
  }

  /** One endpoint adds its topic's entry if missing and counts itself on its side. */
  lemma AddToTopicCounts(topics: map<Option<string>, TopicEntry>, e: Endpoint, k: Option<string>)
    ensures k in AddToTopic(topics, e) <==> k in topics || k == e.topic
    ensures k in AddToTopic(topics, e) ==>
      var prev := if k in topics then topics[k] else NewTopic;
      AddToTopic(topics, e)[k].writers == prev.writers + (if e.topic == k && e.kind == Writer then 1 else 0)
      && AddToTopic(topics, e)[k].readers == prev.readers + (if e.topic == k && e.kind == Reader then 1 else 0)
  {
  }

  /** Other topics' entries are left as they were. */
  lemma AddToTopicOthers(topics: map<Option<string>, TopicEntry>, e: Endpoint, k: Option<string>)
    requires k in topics && k != e.topic
    ensures k in AddToTopic(topics, e) && AddToTopic(topics, e)[k] == topics[k]
  {
  }

  /** What one endpoint adds to its own topic's entry. */
  lemma AddToTopicEntry(topics: map<Option<string>, TopicEntry>, e: Endpoint)
    ensures e.topic in AddToTopic(topics, e)
    ensures var prev := if e.topic in topics then topics[e.topic] else NewTopic.(typeName := e.typeName);
      var r := AddToTopic(topics, e)[e.topic];
      var reliable := e.reliable == Some(ReliableQos);
      r.participants == prev.participants + {e.participant.key}
      && r.multicast == prev.multicast + (if e.kind == Reader && e.multicast.Some? then [e.multicast.value] else [])
      && r.filters == prev.filters + (if e.kind == Reader && e.filter.Some? then [e.filter.value] else [])
      && r.writerLevel == (if e.kind == Writer && reliable then Reliable else prev.writerLevel)
      && r.readerLevel == (if e.kind == Reader && reliable then Reliable else prev.readerLevel)
  {
  }

  /** Writers plus readers on a topic are all the endpoints on it. */
  lemma {:induction false} SidesCoverTopic(es: seq<Endpoint>, k: Option<string>)
    ensures Count(es, OnSide(k, Writer)) + Count(es, OnSide(k, Reader)) == Count(es, OnTopic(k))
  {
    if es != [] {
      SidesCoverTopic(es[..|es| - 1], k);
    }
  }

  /**
   * A side of a topic is "RELIABLE" iff some endpoint of that kind on the
   * topic reports RELIABLE_RELIABILITY_QOS, and "BEST_EFFORT" otherwise.
   */
  lemma TopicLevels(es: seq<Endpoint>, k: Option<string>, kind: Kind)
    requires Build(EmptyTables, es).1 == Pass
    requires k in Build(EmptyTables, es).0.topics
    ensures var entry := Build(EmptyTables, es).0.topics[k];
      var level := if kind == Writer then entry.writerLevel else entry.readerLevel;
      level == Reliable <==> exists e :: e in es && e.topic == k && e.kind == kind && e.reliable == Some(ReliableQos)
  {
    BuildParts(es);
    TopicsAfterLevels(es, k, kind);
  }

  lemma {:induction false} TopicsAfterLevels(es: seq<Endpoint>, k: Option<string>, kind: Kind)
    requires k in TopicsAfter(es)
    ensures var entry := TopicsAfter(es)[k];
      var level := if kind == Writer then entry.writerLevel else entry.readerLevel;
      level == Reliable <==> exists e :: e in es && e.topic == k && e.kind == kind && e.reliable == Some(ReliableQos)
  {
    var init, last := es[..|es| - 1], es[|es| - 1];
    assert es == init + [last];
    AddToTopicEntry(TopicsAfter(init), last);
    if k in TopicsAfter(init) {
      TopicsAfterLevels(init, k, kind);
      if k != last.topic {
        AddToTopicOthers(TopicsAfter(init), last, k);
      }
    } else {
      TopicsAfterCounts(init, k);
    }
  }

  /** Filing one more endpoint never downgrades a side from "RELIABLE". */
  lemma LevelsOnlyRise(t: TablesValue, e: Endpoint, k: Option<string>)
    requires k in t.topics
    ensures k in Step(t, e).0.topics
    ensures t.topics[k].writerLevel == Reliable ==> Step(t, e).0.topics[k].writerLevel == Reliable
    ensures t.topics[k].readerLevel == Reliable ==> Step(t, e).0.topics[k].readerLevel == Reliable
  {
  }

  /** Filing one more endpoint never lowers a type's size; one with no reported size leaves it as it was. */
  lemma SizesOnlyRise(t: TablesValue, e: Endpoint, ty: Option<string>)
    requires ty in t.types
    ensures ty in Step(t, e).0.types && t.types[ty] <= Step(t, e).0.types[ty]
    ensures e.maxSize == "" ==> Step(t, e).0.types[ty] == t.types[ty]
  {
  }

  /** The "type" of a topic is the type name of the first endpoint filed on it. */
  lemma TopicTypeFirstSeen(es: seq<Endpoint>, i: nat)
    requires Build(EmptyTables, es).1 == Pass
    requires i < |es| && forall j :: 0 <= j < i ==> es[j].topic != es[i].topic
    ensures es[i].topic in Build(EmptyTables, es).0.topics
    ensures Build(EmptyTables, es).0.topics[es[i].topic].typeName == es[i].typeName
  {
    BuildParts(es);
    TopicsAfterFirstSeen(es, i);
  }

  lemma {:induction false} TopicsAfterFirstSeen(es: seq<Endpoint>, i: nat)
    requires i < |es| && forall j :: 0 <= j < i ==> es[j].topic != es[i].topic
    ensures es[i].topic in TopicsAfter(es)
    ensures TopicsAfter(es)[es[i].topic].typeName == es[i].typeName
  {
    var init, last := es[..|es| - 1], es[|es| - 1];
    if i < |init| {
      TopicsAfterFirstSeen(init, i);
    } else {
      forall e | e in init ensures e.topic != last.topic {
        var j :| 0 <= j < |init| && init[j] == e;
        assert es[j] == e;
      }
      TopicsAfterCounts(init, last.topic);
    }
  }

  lemma AddToTopicHosts(topics: map<Option<string>, TopicEntry>, e: Endpoint, k: Option<string>, ip: string, host: Option<string>)
    requires k in topics || k == e.topic
    ensures k in AddToTopic(topics, e)
    ensures var r := AddToTopic(topics, e)[k];
      (k != e.topic ==> r == topics[k])
      && (k == e.topic ==>
            var prev := if k in topics then topics[k].devices else map[];
            (ip in r.devices <==> ip in prev || ip == e.participant.device.ip)
            && (ip in r.devices ==>
                  (host in r.devices[ip] <==> (ip in prev && host in prev[ip])
                                              || (ip == e.participant.device.ip && host == e.participant.device.name))))
  {
  }

  /** A topic's "devices" entry holds the address of every endpoint on it, each with the host names seen there. */
  lemma TopicHosts(es: seq<Endpoint>, k: Option<string>, ip: string, host: Option<string>)
    requires Build(EmptyTables, es).1 == Pass
    requires k in Build(EmptyTables, es).0.topics
    ensures var entry := Build(EmptyTables, es).0.topics[k];
      (ip in entry.devices <==> exists e :: e in es && e.topic == k && e.participant.device.ip == ip)
      && (ip in entry.devices ==>
            (host in entry.devices[ip] <==> exists e :: e in es && e.topic == k && e.participant.device.ip == ip
                                                          && e.participant.device.name == host))
  {
    BuildParts(es);
    TopicsAfterHosts(es, k, ip, host);
  }

  lemma {:induction false} TopicsAfterHosts(es: seq<Endpoint>, k: Option<string>, ip: string, host: Option<string>)
    requires k in TopicsAfter(es)
    ensures var entry := TopicsAfter(es)[k];
      (ip in entry.devices <==> exists e :: e in es && e.topic == k && e.participant.device.ip == ip)
      && (ip in entry.devices ==>
            (host in entry.devices[ip] <==> exists e :: e in es && e.topic == k && e.participant.device.ip == ip
                                                          && e.participant.device.name == host))
  {
    var init, last := es[..|es| - 1], es[|es| - 1];
    assert es == init + [last];
    AddToTopicHosts(TopicsAfter(init), last, k, ip, host);
    if k in TopicsAfter(init) {
      TopicsAfterHosts(init, k, ip, host);
    } else {
      TopicsAfterCounts(init, k);
    }
  }

  /** A topic's "participants" entry holds the key of every participant with an endpoint on it. */
  lemma TopicParticipants(es: seq<Endpoint>, k: Option<string>, key: Option<string>)
    requires Build(EmptyTables, es).1 == Pass
    requires k in Build(EmptyTables, es).0.topics
    ensures key in Build(EmptyTables, es).0.topics[k].participants
        <==> exists e :: e in es && e.topic == k && e.participant.key == key
  {
    BuildParts(es);
    TopicsAfterParticipants(es, k, key);
  }

  lemma {:induction false} TopicsAfterParticipants(es: seq<Endpoint>, k: Option<string>, key: Option<string>)
    requires k in TopicsAfter(es)
    ensures key in TopicsAfter(es)[k].participants <==> exists e :: e in es && e.topic == k && e.participant.key == key
  {
    var init, last := es[..|es| - 1], es[|es| - 1];
    ParticipantOnTopicSnoc(es, k, key);
    AddToTopicEntry(TopicsAfter(init), last);
    if k in TopicsAfter(init) {
      TopicsAfterParticipants(init, k, key);
      if k != last.topic {
        AddToTopicOthers(TopicsAfter(init), last, k);
      }
    } else {
      TopicsAfterCounts(init, k);
    }
  }

  /** An endpoint on topic k with participant key `key` is in the prefix or is the last one. */
  lemma ParticipantOnTopicSnoc(es: seq<Endpoint>, k: Option<string>, key: Option<string>)
    requires es != []
    ensures (exists e :: e in es && e.topic == k && e.participant.key == key)
      <==> (exists e :: e in es[..|es| - 1] && e.topic == k && e.participant.key == key)
           || (es[|es| - 1].topic == k && es[|es| - 1].participant.key == key)
  {
    assert es == es[..|es| - 1] + [es[|es| - 1]];
  }

  /** The multicast addresses of the readers on a topic, in filing order. */
  function Multicasts(es: seq<Endpoint>, k: Option<string>): (r: seq<string>)
    ensures |r| <= |es|
  {
    if es == [] then []
    else
      var e := es[|es| - 1];
      Multicasts(es[..|es| - 1], k) + (if e.topic == k && e.kind == Reader && e.multicast.Some? then [e.multicast.value] else [])
  }

  /** The filter expressions of the readers on a topic, in filing order. */
  function Filters(es: seq<Endpoint>, k: Option<string>): (r: seq<string>)
    ensures |r| <= |es|
  {
    if es == [] then []
    else
      var e := es[|es| - 1];
      Filters(es[..|es| - 1], k) + (if e.topic == k && e.kind == Reader && e.filter.Some? then [e.filter.value] else [])
  }

  /** A topic's "multicast" and "content-filters" lists hold one item per reader that has one. */
  lemma ReaderLists(es: seq<Endpoint>, k: Option<string>)
    requires Build(EmptyTables, es).1 == Pass
    requires k in Build(EmptyTables, es).0.topics
    ensures Build(EmptyTables, es).0.topics[k].multicast == Multicasts(es, k)
    ensures Build(EmptyTables, es).0.topics[k].filters == Filters(es, k)
  {
    BuildParts(es);
    TopicsAfterLists(es, k);
  }

  lemma {:induction false} TopicsAfterLists(es: seq<Endpoint>, k: Option<string>)
    requires k in TopicsAfter(es)
    ensures TopicsAfter(es)[k].multicast == Multicasts(es, k)
    ensures TopicsAfter(es)[k].filters == Filters(es, k)
  {
    var init, last := es[..|es| - 1], es[|es| - 1];
    AddToTopicEntry(TopicsAfter(init), last);
    ListsSnoc(init, last, k);
    assert es == init + [last];
    if k in TopicsAfter(init) {
      TopicsAfterLists(init, k);
      if k != last.topic {
        AddToTopicOthers(TopicsAfter(init), last, k);
      }
    } else {
      TopicsAfterCounts(init, k);
      assert Multicasts(init, k) == [] && Filters(init, k) == [] by {
        EmptyFilter(init, k);
      }
    }
  }

  /** One more endpoint extends the two reader lists of its topic by what it carries. */
  lemma ListsSnoc(es: seq<Endpoint>, e: Endpoint, k: Option<string>)
    ensures Multicasts(es + [e], k) == Multicasts(es, k) + (if e.topic == k && e.kind == Reader && e.multicast.Some? then [e.multicast.value] else [])
    ensures Filters(es + [e], k) == Filters(es, k) + (if e.topic == k && e.kind == Reader && e.filter.Some? then [e.filter.value] else [])
  {
    assert (es + [e])[..|es|] == es;
  }

  lemma {:induction false} EmptyFilter(es: seq<Endpoint>, k: Option<string>)
    requires forall e :: e in es ==> e.topic != k
    ensures Multicasts(es, k) == [] && Filters(es, k) == []
  {
    if es != [] {
      assert es == es[..|es| - 1] + [es[|es| - 1]];
      EmptyFilter(es[..|es| - 1], k);
    }
  }

  /**
   * A named topic is in the reliable-writers set iff a writer on it reports
   * RELIABLE_RELIABILITY_QOS, and likewise for the other three sets; topics
   * that are None or "" are never filed.
   */
  lemma ReliabilitySets(es: seq<Endpoint>, name: string)
    requires Build(EmptyTables, es).1 == Pass
    ensures var t := Build(EmptyTables, es).0;
      (name in t.reliableWriters <==> name != "" && exists e :: e in es && e.topic == Some(name) && e.kind == Writer && e.reliable == Some(ReliableQos))
      && (name in t.besteffortWriters <==> name != "" && exists e :: e in es && e.topic == Some(name) && e.kind == Writer && e.reliable == Some(BestEffortQos))
      && (name in t.reliableReaders <==> name != "" && exists e :: e in es && e.topic == Some(name) && e.kind == Reader && e.reliable == Some(ReliableQos))
      && (name in t.besteffortReaders <==> name != "" && exists e :: e in es && e.topic == Some(name) && e.kind == Reader && e.reliable == Some(BestEffortQos))
  {
    BuildParts(es);
    FiledMeaning(es, name, Writer, ReliableQos);
    FiledMeaning(es, name, Writer, BestEffortQos);
    FiledMeaning(es, name, Reader, ReliableQos);
    FiledMeaning(es, name, Reader, BestEffortQos);
  }

  lemma {:induction false} FiledMeaning(es: seq<Endpoint>, name: string, kind: Kind, qos: string)
    ensures name in FiledAfter(es, kind, qos)
        <==> name != "" && exists e :: e in es && e.topic == Some(name) && e.kind == kind && e.reliable == Some(qos)
  {
    if es != [] {
      var init, last := es[..|es| - 1], es[|es| - 1];
      assert es == init + [last];
      FiledMeaning(init, name, kind, qos);
    }
  }

  /**
   * Every devices_table counter is the number of endpoints of that kind on
   * that topic, in that participant (by label), on that host address.
   */
  lemma DeviceCounters(es: seq<Endpoint>, ip: string, app: Option<string>, k: Option<string>, kind: Kind)
    requires Build(EmptyTables, es).1 == Pass
    ensures Cell(Build(EmptyTables, es).0.devices, ip, app, k, kind) == Count(es, AtCell(ip, app, k, kind))
  {
    BuildParts(es);
    DevicesAfterCounters(es, ip, app, k, kind);
  }

  lemma {:induction false} DevicesAfterCounters(es: seq<Endpoint>, ip: string, app: Option<string>, k: Option<string>, kind: Kind)
    ensures Cell(DevicesAfter(es), ip, app, k, kind) == Count(es, AtCell(ip, app, k, kind))
  {
    if es != [] {
      var init, last := es[..|es| - 1], es[|es| - 1];
      assert es == init + [last];
      DevicesAfterCounters(init, ip, app, k, kind);
      CellStep(DevicesAfter(init), last, ip, app, k, kind);
      FilterSnoc(init, last, AtCell(ip, app, k, kind));
    }
  }

  /** One endpoint bumps its own cell by one and leaves every other cell alone. */
  lemma CellStep(devices: map<string, DeviceEntry>, e: Endpoint, ip: string, app: Option<string>, k: Option<string>, kind: Kind)
    ensures Cell(CountOnDevice(devices, e), ip, app, k, kind)
         == Cell(devices, ip, app, k, kind) + (if AtCell(ip, app, k, kind)(e) then 1 else 0)
  {
  }

  lemma CountOnDeviceNames(devices: map<string, DeviceEntry>, e: Endpoint, ip: string)
    ensures var r := CountOnDevice(devices, e);
      (ip in r <==> ip in devices || ip == e.participant.device.ip)
      && (ip in devices ==> r[ip].name == devices[ip].name)
      && (ip !in devices && ip == e.participant.device.ip ==> r[ip].name == e.participant.device.name)
  {
  }

  /** devices_table has an entry for exactly the addresses of the endpoints, named by the first endpoint seen there. */
  lemma DeviceEntries(es: seq<Endpoint>, ip: string)
    requires Build(EmptyTables, es).1 == Pass
    ensures var devices := Build(EmptyTables, es).0.devices;
      (ip in devices <==> exists e :: e in es && e.participant.device.ip == ip)
      && (ip in devices ==> exists i :: 0 <= i < |es| && es[i].participant.device.ip == ip
                              && devices[ip].name == es[i].participant.device.name
                              && forall j :: 0 <= j < i ==> es[j].participant.device.ip != ip)
  {
    BuildParts(es);
    DevicesAfterEntries(es, ip);
  }

  lemma DevicesAfterEntries(es: seq<Endpoint>, ip: string)
    ensures var devices := DevicesAfter(es);
      (ip in devices <==> exists e :: e in es && e.participant.device.ip == ip)
      && (ip in devices ==> exists i :: 0 <= i < |es| && es[i].participant.device.ip == ip
                              && devices[ip].name == es[i].participant.device.name
                              && forall j :: 0 <= j < i ==> es[j].participant.device.ip != ip)
  {
    DevicesAfterKeys(es, ip);
    if ip in DevicesAfter(es) {
      var i := DevicesAfterName(es, ip);
    }
  }

  lemma {:induction false} DevicesAfterKeys(es: seq<Endpoint>, ip: string)
    ensures ip in DevicesAfter(es) <==> exists e :: e in es && e.participant.device.ip == ip
  {
    if es != [] {
      var init, last := es[..|es| - 1], es[|es| - 1];
      assert es == init + [last];
      DevicesAfterKeys(init, ip);
      CountOnDeviceNames(DevicesAfter(init), last, ip);
    }
  }

  /** The endpoint at i is the first on address ip. */
  predicate FirstOnDevice(es: seq<Endpoint>, i: int, ip: string)
  {
    0 <= i < |es| && es[i].participant.device.ip == ip && forall j :: 0 <= j < i ==> es[j].participant.device.ip != ip
  }

  /** The entry of an address is named by the first endpoint filed on it. */
  lemma {:induction false} DevicesAfterName(es: seq<Endpoint>, ip: string) returns (i: nat)
    requires ip in DevicesAfter(es)
    ensures FirstOnDevice(es, i, ip) && DevicesAfter(es)[ip].name == es[i].participant.device.name
  {
    var init, last := es[..|es| - 1], es[|es| - 1];
    CountOnDeviceNames(DevicesAfter(init), last, ip);
    if ip in DevicesAfter(init) {
      i := DevicesAfterName(init, ip);
      assert es[i] == init[i];
      assert FirstOnDevice(es, i, ip) by {
        forall j | 0 <= j < i ensures es[j].participant.device.ip != ip {
          assert es[j] == init[j];
        }
      }
    } else {
      DevicesAfterKeys(init, ip);
      i := |es| - 1;
      assert FirstOnDevice(es, i, ip) by {
        forall j | 0 <= j < i ensures es[j].participant.device.ip != ip {
          assert es[j] == init[j] && init[j] in init;
        }
      }
    }
  }

  /**
   * The global devices dictionary maps every participant's address to the
   * host name of the last participant with that address.
   */
  lemma {:induction false} DevicesLastWrite(devices: map<string, Option<string>>, ps: seq<Participant>, ip: string)
    ensures var d := RecordDevices(devices, ps);
      (ip in d <==> ip in devices || exists p :: p in ps && p.device.ip == ip)
      && ((forall p :: p in ps ==> p.device.ip != ip) ==> ip in d ==> d[ip] == devices[ip])
      && (forall i :: 0 <= i < |ps| && ps[i].device.ip == ip && (forall j :: i < j < |ps| ==> ps[j].device.ip != ip)
            ==> d[ip] == ps[i].device.name)
  {
    if ps != [] {
      var init, last := ps[..|ps| - 1], ps[|ps| - 1];
      assert ps == init + [last];
      DevicesLastWrite(devices, init, ip);
      forall i | 0 <= i < |init| && ps[i].device.ip == ip && (forall j :: i < j < |ps| ==> ps[j].device.ip != ip)
        ensures RecordDevices(devices, ps)[ip] == ps[i].device.name
      {
        assert init[i] == ps[i];
      }
    }
  }

  // ------------------------------------------------------------ counter totals

  /** The sum of w over the values of m. */
  ghost function MapSum<K, V>(m: map<K, V>, w: V -> nat): nat
    decreases m.Keys
  {
    if m.Keys == {} then 0
    else
      var k :| k in m;
      w(m[k]) + MapSum(m - {k}, w)
  }

  /** The sum does not depend on which key is taken out first. */
  lemma MapSumRemove<K, V>(m: map<K, V>, w: V -> nat, k: K)
    requires k in m
    ensures MapSum(m, w) == w(m[k]) + MapSum(m - {k}, w)
    decreases m.Keys
  {
    var j :| j in m && MapSum(m, w) == w(m[j]) + MapSum(m - {j}, w);
    if j != k {
      MapSumRemove(m - {j}, w, k);
      MapSumRemove(m - {k}, w, j);
      assert m - {j} - {k} == m - {k} - {j};
    }
  }

  /** Storing v under k replaces the weight of the old value, if any, by the weight of v. */
  lemma MapSumUpdate<K, V>(m: map<K, V>, w: V -> nat, k: K, v: V)
    ensures MapSum(m[k := v], w) + (if k in m then w(m[k]) else 0) == MapSum(m, w) + w(v)
  {
    MapSumRemove(m[k := v], w, k);
    assert m[k := v] - {k} == m - {k};
    if k in m {
      MapSumRemove(m, w, k);
    } else {
      assert m - {k} == m;
    }
  }

  /** The writers plus the readers of one devices_table cell. */
  function CellTotal(c: Counts): nat
  {
    c.writers + c.readers
  }

  ghost function TopicsTotal(cells: map<Option<string>, Counts>): nat
  {
    MapSum(cells, CellTotal)
  }

  ghost function AppsTotal(apps: map<Option<string>, map<Option<string>, Counts>>): nat
  {
    MapSum(apps, TopicsTotal)
  }

  ghost function EntryTotal(entry: DeviceEntry): nat
  {
    AppsTotal(entry.apps)
  }

  /** All the counters of devices_table added up, over every address, participant and topic. */
  ghost function DevicesTotal(devices: map<string, DeviceEntry>): nat
  {
    MapSum(devices, EntryTotal)
  }

  /**
   * Every endpoint is counted in exactly one devices_table cell: the writer
   * and reader counters of all cells add up to the number of endpoints.
   */
  lemma DeviceCountersTotal(es: seq<Endpoint>)
    requires Build(EmptyTables, es).1 == Pass
    ensures DevicesTotal(Build(EmptyTables, es).0.devices) == |es|
  {
    BuildParts(es);
    DevicesAfterTotal(es);
  }

  lemma {:induction false} DevicesAfterTotal(es: seq<Endpoint>)
    ensures DevicesTotal(DevicesAfter(es)) == |es|
  {
    if es != [] {
      DevicesAfterTotal(es[..|es| - 1]);
      CountOnDeviceTotal(DevicesAfter(es[..|es| - 1]), es[|es| - 1]);
    }
  }

  /** One endpoint adds one to the total, whichever entries it has to create. */
  lemma CountOnDeviceTotal(devices: map<string, DeviceEntry>, e: Endpoint)
    ensures DevicesTotal(CountOnDevice(devices, e)) == DevicesTotal(devices) + 1
  {
    var ip := e.participant.device.ip;
    var entry := if ip in devices then devices[ip] else DeviceEntry(e.participant.device.name, map[]);
    var app := Label(e.participant);
    var topics := if app in entry.apps then entry.apps[app] else map[];
    var cells := if e.topic in topics then topics else topics[e.topic := Counts(0, 0)];
    var cells' := cells[e.topic := Bump(cells[e.topic], e.kind)];
    CellsStep(topics, e.topic, e.kind);
    var entry' := entry.(apps := entry.apps[app := cells']);
    AppsStep(entry.apps, app, cells');
    assert AppsTotal(map[]) == 0;
    MapSumUpdate(devices, EntryTotal, ip, entry');
  }

  /** Bumping one cell, created at 0 when missing, adds one to a participant's total. */
  lemma CellsStep(topics: map<Option<string>, Counts>, k: Option<string>, kind: Kind)
    ensures var cells := if k in topics then topics else topics[k := Counts(0, 0)];
      TopicsTotal(cells[k := Bump(cells[k], kind)]) == TopicsTotal(topics) + 1
  {
    if k in topics {
      MapSumUpdate(topics, CellTotal, k, Bump(topics[k], kind));
    } else {
      var bumped := Bump(Counts(0, 0), kind);
      assert topics[k := Counts(0, 0)][k := bumped] == topics[k := bumped];
      MapSumUpdate(topics, CellTotal, k, bumped);
    }
  }

  /** Replacing a participant's cells, or adding them when the participant is new, changes the address total accordingly. */
  lemma AppsStep(apps: map<Option<string>, map<Option<string>, Counts>>, app: Option<string>, cells: map<Option<string>, Counts>)
    ensures AppsTotal(apps[app := cells]) + (if app in apps then TopicsTotal(apps[app]) else 0) == AppsTotal(apps) + TopicsTotal(cells)
  {
    MapSumUpdate(apps, TopicsTotal, app, cells);
  }

  /** A devices_table cell exists only where an endpoint was counted. */
  lemma CellsAreOccupied(es: seq<Endpoint>, ip: string, app: Option<string>, k: Option<string>)
    requires Build(EmptyTables, es).1 == Pass
    requires var devices := Build(EmptyTables, es).0.devices;
      ip in devices && app in devices[ip].apps && k in devices[ip].apps[app]
    ensures exists e :: e in es && e.participant.device.ip == ip && Label(e.participant) == app && e.topic == k
  {
    BuildParts(es);
    DevicesAfterOccupied(es, ip, app, k);
    DeviceCounters(es, ip, app, k, Writer);
    DeviceCounters(es, ip, app, k, Reader);
    var kind := if Count(es, AtCell(ip, app, k, Writer)) > 0 then Writer else Reader;
    var e := Filter(es, AtCell(ip, app, k, kind))[0];
    assert AtCell(ip, app, k, kind)(e);
  }

  lemma {:induction false} DevicesAfterOccupied(es: seq<Endpoint>, ip: string, app: Option<string>, k: Option<string>)
    ensures var devices := DevicesAfter(es);
      ip in devices && app in devices[ip].apps && k in devices[ip].apps[app] ==> CellTotal(devices[ip].apps[app][k]) >= 1
  {
    if es != [] {
      DevicesAfterOccupied(es[..|es| - 1], ip, app, k);
    }
  }

  // ------------------------------------------------------------ order

  lemma SameMembers(a: seq<Endpoint>, b: seq<Endpoint>)
    requires multiset(a) == multiset(b)
    ensures forall e :: e in a <==> e in b
  {
    forall e ensures e in a <==> e in b {
      assert e in a <==> e in multiset(a);
      assert e in b <==> e in multiset(b);
    }
  }

  /** Filing the same endpoints in another order passes or raises alike. */
  lemma PassesInAnyOrder(a: seq<Endpoint>, b: seq<Endpoint>)
    requires multiset(a) == multiset(b)
    ensures Build(EmptyTables, a).1 == Build(EmptyTables, b).1 || (Build(EmptyTables, a).1.Fail? && Build(EmptyTables, b).1.Fail?)
  {
    SameMembers(a, b);
    BuildPasses(EmptyTables, a);
    BuildPasses(EmptyTables, b);
  }

  /** The types table does not depend on the order of the endpoints. */
  lemma TypesIgnoreOrder(a: seq<Endpoint>, b: seq<Endpoint>)
    requires multiset(a) == multiset(b)
    requires Build(EmptyTables, a).1 == Pass && Build(EmptyTables, b).1 == Pass
    ensures Build(EmptyTables, a).0.types == Build(EmptyTables, b).0.types
  {
    SameMembers(a, b);
    var ta, tb := Build(EmptyTables, a).0.types, Build(EmptyTables, b).0.types;
    forall ty ensures (ty in ta <==> ty in tb) && (ty in ta ==> ta[ty] == tb[ty]) {
      TypesAreMaxima(a, ty);
      TypesAreMaxima(b, ty);
    }
  }

  /** A topic's counters and reliability levels do not depend on the order of the endpoints. */
  lemma TopicCountsIgnoreOrder(a: seq<Endpoint>, b: seq<Endpoint>, k: Option<string>)
    requires multiset(a) == multiset(b)
    requires Build(EmptyTables, a).1 == Pass && Build(EmptyTables, b).1 == Pass
    ensures var ta, tb := Build(EmptyTables, a).0.topics, Build(EmptyTables, b).0.topics;
      (k in ta <==> k in tb)
      && (k in ta ==>
            ta[k].writers == tb[k].writers && ta[k].readers == tb[k].readers
            && ta[k].writerLevel == tb[k].writerLevel && ta[k].readerLevel == tb[k].readerLevel)
  {
    SameMembers(a, b);
    TopicCounts(a, k);
    TopicCounts(b, k);
    FilterPermutation(a, b, OnSide(k, Writer));
    FilterPermutation(a, b, OnSide(k, Reader));
    if k in Build(EmptyTables, a).0.topics {
      TopicLevels(a, k, Writer);
      TopicLevels(b, k, Writer);
      TopicLevels(a, k, Reader);
      TopicLevels(b, k, Reader);
    }
  }

  /** A topic's hosts and participant keys do not depend on the order of the endpoints. */
  lemma TopicMembersIgnoreOrder(a: seq<Endpoint>, b: seq<Endpoint>, k: Option<string>)
    requires multiset(a) == multiset(b)
    requires Build(EmptyTables, a).1 == Pass && Build(EmptyTables, b).1 == Pass
    requires k in Build(EmptyTables, a).0.topics
    ensures k in Build(EmptyTables, b).0.topics
    ensures Build(EmptyTables, a).0.topics[k].participants == Build(EmptyTables, b).0.topics[k].participants
    ensures Build(EmptyTables, a).0.topics[k].devices == Build(EmptyTables, b).0.topics[k].devices
  {
    SameMembers(a, b);
    TopicCountsIgnoreOrder(a, b, k);
    var ea, eb := Build(EmptyTables, a).0.topics[k], Build(EmptyTables, b).0.topics[k];
    forall key ensures key in ea.participants <==> key in eb.participants {
      TopicParticipants(a, k, key);
      TopicParticipants(b, k, key);
    }
    forall ip ensures (ip in ea.devices <==> ip in eb.devices) && (ip in ea.devices ==> ea.devices[ip] == eb.devices[ip]) {
      TopicHosts(a, k, ip, None);
      TopicHosts(b, k, ip, None);
      if ip in ea.devices {
        forall host ensures host in ea.devices[ip] <==> host in eb.devices[ip] {
          TopicHosts(a, k, ip, host);
          TopicHosts(b, k, ip, host);
        }
      }
    }
  }

  /** The four reliability sets do not depend on the order of the endpoints. */
  lemma ReliabilitySetsIgnoreOrder(a: seq<Endpoint>, b: seq<Endpoint>)
    requires multiset(a) == multiset(b)
    requires Build(EmptyTables, a).1 == Pass && Build(EmptyTables, b).1 == Pass
    ensures var ta, tb := Build(EmptyTables, a).0, Build(EmptyTables, b).0;
      ta.reliableWriters == tb.reliableWriters && ta.besteffortWriters == tb.besteffortWriters
      && ta.reliableReaders == tb.reliableReaders && ta.besteffortReaders == tb.besteffortReaders
  {
    SameMembers(a, b);
    forall name: string ensures var ta, tb := Build(EmptyTables, a).0, Build(EmptyTables, b).0;
      (name in ta.reliableWriters <==> name in tb.reliableWriters)
      && (name in ta.besteffortWriters <==> name in tb.besteffortWriters)
      && (name in ta.reliableReaders <==> name in tb.reliableReaders)
      && (name in ta.besteffortReaders <==> name in tb.besteffortReaders)
    {
      ReliabilitySets(a, name);
      ReliabilitySets(b, name);
    }
  }

  /** Every devices_table counter is the same whatever the order of the endpoints. */
  lemma DeviceCountersIgnoreOrder(a: seq<Endpoint>, b: seq<Endpoint>, ip: string, app: Option<string>, k: Option<string>, kind: Kind)
    requires multiset(a) == multiset(b)
    requires Build(EmptyTables, a).1 == Pass && Build(EmptyTables, b).1 == Pass
    ensures Cell(Build(EmptyTables, a).0.devices, ip, app, k, kind) == Cell(Build(EmptyTables, b).0.devices, ip, app, k, kind)
  {
    DeviceCounters(a, ip, app, k, kind);
    DeviceCounters(b, ip, app, k, kind);
    FilterPermutation(a, b, AtCell(ip, app, k, kind));
  }

  /**
   * The "type" column of a topic is order-dependent: two endpoints on one
   * topic with different type names give different entries in the two orders.
   */
  lemma TopicTypeDependsOnOrder(x: Endpoint, y: Endpoint)
    requires x.topic == y.topic && x.typeName != y.typeName
    requires SizeReadable(x) && SizeReadable(y)
    ensures Build(EmptyTables, [x, y]).1 == Pass && Build(EmptyTables, [y, x]).1 == Pass
    ensures Build(EmptyTables, [x, y]).0.topics[x.topic].typeName == x.typeName
    ensures Build(EmptyTables, [y, x]).0.topics[x.topic].typeName == y.typeName
  {
    BuildPasses(EmptyTables, [x, y]);
    BuildPasses(EmptyTables, [y, x]);
    TopicTypeFirstSeen([x, y], 0);
    TopicTypeFirstSeen([y, x], 0);
  }
}
