/**
 * extract_tables: one pass over a domain's endpoints that fills the
 * devices, topics and types tables and the four reliability topic sets, and
 * records each participant's host in the global devices dictionary.
 */
module Tables {
  import opened Wrappers
  import opened Text
  import opened Records
  import opened Topology

  const ReliableQos: string := "RELIABLE_RELIABILITY_QOS"
  const BestEffortQos: string := "BEST_EFFORT_RELIABILITY_QOS"

  /** The "reliable" entry of a topic side: "BEST_EFFORT" until upgraded to "RELIABLE". */
  datatype Level = BestEffort | Reliable

  /** The {"writer": n, "reader": m} counters of one (device, participant, topic) cell. */
  datatype Counts = Counts(writers: nat, readers: nat)

  /** devices_table[ip]: the host name seen first for the address, and participant label -> topic -> counters. */
  datatype DeviceEntry = DeviceEntry(name: Option<string>, apps: map<Option<string>, map<Option<string>, Counts>>)

  /**
   * topics_table[topic]. Only the keys of the "participants" dictionary are
   * kept: its sets of participant objects are only ever counted by key.
   */
  datatype TopicEntry = TopicEntry(
    typeName: Option<string>,
    writers: nat,
    writerLevel: Level,
    readers: nat,
    readerLevel: Level,
    multicast: seq<string>,
    filters: seq<string>,
    devices: map<string, set<Option<string>>>,
    participants: set<Option<string>>)

  /** The seven dictionaries extract_tables updates; the reliability ones are used only as key sets. */
  datatype TablesValue = TablesValue(
    devices: map<string, DeviceEntry>,
    topics: map<Option<string>, TopicEntry>,
    types: map<Option<string>, nat>,
    reliableWriters: set<string>,
    besteffortWriters: set<string>,
    reliableReaders: set<string>,
    besteffortReaders: set<string>)

  const EmptyTables := TablesValue(map[], map[], map[], {}, {}, {}, {})

  const NewTopic := TopicEntry(None, 0, BestEffort, 0, BestEffort, [], [], map[], {})

  /** Python truthiness of a topic name: present and not empty. */
  predicate Truthy(topic: Option<string>)
  {
    topic.Some? && topic.value != ""
  }

  function Max(a: nat, b: nat): nat
  {
    if a < b then b else a
  }

  function Bump(c: Counts, kind: Kind): Counts
  {
    if kind == Writer then c.(writers := c.writers + 1) else c.(readers := c.readers + 1)
  }

  /**
   * One reliability set after an endpoint: its named topic is added when the
   * endpoint has the given kind and reliability kind. The four cases of the
   * if/elif chain exclude one another, so each set is decided on its own.
   */
  function FileIf(topics: set<string>, e: Endpoint, kind: Kind, qos: string): set<string>
  {
    if Truthy(e.topic) && e.kind == kind && e.reliable == Some(qos) then topics + {e.topic.value} else topics
  }

  /** The devices_table update: create the host, participant and topic entries as needed, then count. */
  function CountOnDevice(devices: map<string, DeviceEntry>, e: Endpoint): map<string, DeviceEntry>
  {
    var ip := e.participant.device.ip;
    var entry := if ip in devices then devices[ip] else DeviceEntry(e.participant.device.name, map[]);
    var app := Label(e.participant);
    var topics := if app in entry.apps then entry.apps[app] else map[];
    var cells := if e.topic in topics then topics else topics[e.topic := Counts(0, 0)];
    devices[ip := entry.(apps := entry.apps[app := cells[e.topic := Bump(cells[e.topic], e.kind)]])]
  }

  /** The count, reliability, multicast and filter part of the topics_table update. */
  function CountOnTopic(entry: TopicEntry, e: Endpoint): TopicEntry
  {
    var reliable := e.reliable == Some(ReliableQos);
    if e.kind == Writer then
      entry.(writers := entry.writers + 1, writerLevel := if reliable then Reliable else entry.writerLevel)
    else
      entry.(readers := entry.readers + 1, readerLevel := if reliable then Reliable else entry.readerLevel,
             multicast := entry.multicast + (if e.multicast.Some? then [e.multicast.value] else []),
             filters := entry.filters + (if e.filter.Some? then [e.filter.value] else []))
  }

  /** The topics_table update for one endpoint. */
  function AddToTopic(topics: map<Option<string>, TopicEntry>, e: Endpoint): map<Option<string>, TopicEntry>
  {
    var entry := if e.topic in topics then topics[e.topic] else NewTopic.(typeName := e.typeName);
    var sides := CountOnTopic(entry, e);
    var ip := e.participant.device.ip;
    var hosts := if ip in sides.devices then sides.devices else sides.devices[ip := {}];
    topics[e.topic := sides.(devices := hosts[ip := hosts[ip] + {e.participant.device.name}],
                             participants := sides.participants + {e.participant.key})]
  }

  /** types_table[type] is seeded with 0, then raised to the reported size when there is one. */
  function SizeType(types: map<Option<string>, nat>, e: Endpoint): map<Option<string>, nat>
  {
    var seeded := if e.typeName in types then types else types[e.typeName := 0];
    if e.maxSize == "" then seeded
    else
      match ParseDecimal(e.maxSize)
      case None => seeded
      case Some(n) => seeded[e.typeName := Max(seeded[e.typeName], n)]
  }

  /** int() raises on a reported size that is not a decimal numeral. */
  function SizeOutcome(e: Endpoint): Outcome<Fault>
  {
    if e.maxSize == "" || ParseDecimal(e.maxSize).Some? then Pass else Fail(BadDecimal)
  }

  /**
   * One iteration of the loop over endpoints: the tables afterwards, and
   * whether int() raised on the serialized size. It raises after every other
   * update of the iteration, the seeding of the type included.
   */
  function Step(t: TablesValue, e: Endpoint): (TablesValue, Outcome<Fault>)
  {
    (TablesValue(
       CountOnDevice(t.devices, e),
       AddToTopic(t.topics, e),
       SizeType(t.types, e),
       FileIf(t.reliableWriters, e, Writer, ReliableQos),
       FileIf(t.besteffortWriters, e, Writer, BestEffortQos),
       FileIf(t.reliableReaders, e, Reader, ReliableQos),
       FileIf(t.besteffortReaders, e, Reader, BestEffortQos)),
     SizeOutcome(e))
  }

  /** The tables after the loop over the endpoints, stopping at the first exception. */
  function Build(t: TablesValue, es: seq<Endpoint>): (TablesValue, Outcome<Fault>)
  {
    if es == [] then (t, Pass)
    else
      var (u, o) := Build(t, es[..|es| - 1]);
      if o.Fail? then (u, o) else Step(u, es[|es| - 1])
  }

  /** The first loop of extract_tables: devices[ip] = hostname, for each participant in order. */
  function RecordDevices(devices: map<string, Option<string>>, ps: seq<Participant>): map<string, Option<string>>
  {
    if ps == [] then devices
    else
      var p := ps[|ps| - 1];
      RecordDevices(devices, ps[..|ps| - 1])[p.device.ip := p.device.name]
  }

  /** The dictionaries extract_tables is handed, updated in place. */
  class Tables {
    var devicesTable: map<string, DeviceEntry>
    var topicsTable: map<Option<string>, TopicEntry>
    var typesTable: map<Option<string>, nat>
    var reliableWriters: set<string>
    var besteffortWriters: set<string>
    var reliableReaders: set<string>
    var besteffortReaders: set<string>

    /** The fresh, empty dictionaries the main program creates for each domain. */
    constructor()
      ensures Value() == EmptyTables
    {
      devicesTable, topicsTable, typesTable := map[], map[], map[];
      reliableWriters, besteffortWriters, reliableReaders, besteffortReaders := {}, {}, {}, {};
    }

    ghost function Value(): TablesValue
      reads this
    {
      TablesValue(devicesTable, topicsTable, typesTable, reliableWriters, besteffortWriters, reliableReaders, besteffortReaders)
    }

    /** extract_tables(domain, ...). */
    method Extract(domain: Domain, snapshot: Snapshot) returns (r: Outcome<Fault>)
      modifies this, snapshot
      ensures snapshot.devices == RecordDevices(old(snapshot.devices), domain.participants)
      ensures snapshot.domains == old(snapshot.domains)
      ensures (Value(), r) == Build(old(Value()), domain.endpoints)
    {
      var participants := domain.participants;
      var k := 0;
      while k < |participants|
        invariant 0 <= k <= |participants|
        invariant snapshot.devices == RecordDevices(old(snapshot.devices), participants[..k])
        invariant snapshot.domains == old(snapshot.domains)
        invariant Value() == old(Value())
      {
        assert participants[..k + 1][..k] == participants[..k];
        snapshot.devices := snapshot.devices[participants[k].device.ip := participants[k].device.name];
        k := k + 1;
      }
      assert participants[..k] == participants;
      var endpoints := domain.endpoints;
      var i := 0;
      while i < |endpoints|
        invariant 0 <= i <= |endpoints|
        invariant snapshot.devices == RecordDevices(old(snapshot.devices), participants)
        invariant snapshot.domains == old(snapshot.domains)
        invariant (Value(), Pass) == Build(old(Value()), endpoints[..i])
      {
        BuildNext(old(Value()), endpoints, i);
        var o := Add(endpoints[i]);
        if o.Fail? {
          BuildFailureSticks(old(Value()), endpoints, i + 1);
          assert endpoints[..|endpoints|] == endpoints;
          return o;
        }
        i := i + 1;
      }
      assert endpoints[..i] == endpoints;
      return Pass;
    }

    /** The body of the loop over endpoints, for one endpoint. */
    method Add(e: Endpoint) returns (r: Outcome<Fault>)
      modifies this
      ensures (Value(), r) == Step(old(Value()), e)
    {
      Classify(e);
      CountDevice(e);
      FileTopic(e);
      if e.typeName !in typesTable {
        typesTable := typesTable[e.typeName := 0];
      }
      if e.maxSize != "" {
        var size := ParseDecimal(e.maxSize);
        if size.None? {
          return Fail(BadDecimal);
        }
        typesTable := typesTable[e.typeName := Max(typesTable[e.typeName], size.value)];
      }
      return Pass;
    }

    /** The reliability if/elif chain. */
    method Classify(e: Endpoint)
      modifies this
      ensures Value() == old(Value()).(
        reliableWriters := FileIf(old(reliableWriters), e, Writer, ReliableQos),
        besteffortWriters := FileIf(old(besteffortWriters), e, Writer, BestEffortQos),
        reliableReaders := FileIf(old(reliableReaders), e, Reader, ReliableQos),
        besteffortReaders := FileIf(old(besteffortReaders), e, Reader, BestEffortQos))
    {
      if Truthy(e.topic) {
        var name := e.topic.value;
        if e.kind == Writer && e.reliable == Some(ReliableQos) {
          reliableWriters := reliableWriters + {name};
        } else if e.kind == Writer && e.reliable == Some(BestEffortQos) {
          besteffortWriters := besteffortWriters + {name};
        } else if e.kind == Reader && e.reliable == Some(BestEffortQos) {
          besteffortReaders := besteffortReaders + {name};
        } else if e.kind == Reader && e.reliable == Some(ReliableQos) {
          reliableReaders := reliableReaders + {name};
        }
      }
    }

    /** The devices_table update. */
    method CountDevice(e: Endpoint)
      modifies this
      ensures Value() == old(Value()).(devices := CountOnDevice(old(devicesTable), e))
    {
      var ip := e.participant.device.ip;
      if ip !in devicesTable {
        devicesTable := devicesTable[ip := DeviceEntry(e.participant.device.name, map[])];
      }
      var app := Label(e.participant);
      var apps := devicesTable[ip].apps;
      if app !in apps {
        apps := apps[app := map[]];
      }
      var cells := apps[app];
      if e.topic !in cells {
        cells := cells[e.topic := Counts(0, 0)];
      }
      cells := cells[e.topic := Bump(cells[e.topic], e.kind)];
      assert apps[app := cells] == devicesTable[ip].apps[app := cells];
      devicesTable := devicesTable[ip := devicesTable[ip].(apps := apps[app := cells])];
    }

    /** The topics_table update. */
    method FileTopic(e: Endpoint)
      modifies this
      ensures Value() == old(Value()).(topics := AddToTopic(old(topicsTable), e))
    {
      if e.topic !in topicsTable {
        topicsTable := topicsTable[e.topic := NewTopic.(typeName := e.typeName)];
      }
      var entry := topicsTable[e.topic];
      ghost var found := entry;
      if e.kind == Writer {
        entry := entry.(writers := entry.writers + 1);
      } else {
        entry := entry.(readers := entry.readers + 1);
      }
      if e.reliable == Some(ReliableQos) {
        if e.kind == Writer {
          entry := entry.(writerLevel := Reliable);
        } else {
          entry := entry.(readerLevel := Reliable);
        }
      }
      if e.kind == Reader {
        if e.multicast.Some? {
          entry := entry.(multicast := entry.multicast + [e.multicast.value]);
        }
        if e.filter.Some? {
          entry := entry.(filters := entry.filters + [e.filter.value]);
        }
      }
      assert entry == CountOnTopic(found, e);
      var ip := e.participant.device.ip;
      if ip !in entry.devices {
        entry := entry.(devices := entry.devices[ip := {}]);
      }
      entry := entry.(devices := entry.devices[ip := entry.devices[ip] + {e.participant.device.name}]);
      entry := entry.(participants := entry.participants + {e.participant.key});
      topicsTable := topicsTable[e.topic := entry];
    }
  }

  lemma BuildNext(t: TablesValue, es: seq<Endpoint>, i: nat)
    requires i < |es|
    requires Build(t, es[..i]).1 == Pass
    ensures Build(t, es[..i + 1]) == Step(Build(t, es[..i]).0, es[i])
  {
    assert es[..i + 1][..i] == es[..i];
  }

  lemma {:induction false} BuildFailureSticks(t: TablesValue, es: seq<Endpoint>, k: nat)
    requires k <= |es|
    requires Build(t, es[..k]).1.Fail?
    ensures Build(t, es) == Build(t, es[..k])
    decreases |es| - k
  {
    if k == |es| {
      assert es[..k] == es;
    } else {
      assert es[..k + 1][..k] == es[..k];
      BuildFailureSticks(t, es, k + 1);
    }
  }
}
