/**
 * The data-frame analyser (dds_analyze_v3.py): ProcessFile appends one
 * participant row per `domain_participants` element and one endpoint row per
 * publication and subscription to two frames, which the tests then read.
 */
module Frames {
  import opened Wrappers
  import opened Records
  import opened Topology

  /** A row of participants_df: domain_id, name, key, device_ip, device_name, path. */
  datatype ParticipantRow = ParticipantRow(
    domainId: string,
    name: Option<string>,
    key: Option<string>,
    deviceIp: string,
    deviceName: Option<string>,
    path: Option<string>)

  /**
   * A row of endpoints_df. The participantKey column holds what
   * ProcessFile passes in, which is the participant's name.
   */
  datatype EndpointRow = EndpointRow(
    domainId: string,
    kind: Kind,
    topic: Option<string>,
    typeName: Option<string>,
    participantKey: Option<string>,
    reliable: Option<string>,
    maxSize: string,
    deadline: Deadline,
    filter: Option<string>,
    multicast: Option<string>)

  /** The list parse_participant returns. */
  function ParticipantRowOf(domainId: string, f: ParticipantFields): ParticipantRow
  {
    ParticipantRow(domainId, f.name, f.key, f.ip, f.hostname, f.filepath)
  }

  /** The list parse_endpoint returns. */
  function EndpointRowOf(domainId: string, kind: Kind, f: EndpointFields, owner: Option<string>): EndpointRow
  {
    EndpointRow(domainId, kind, f.topic, f.typeName, owner, f.reliable, f.maxSize, f.deadline, f.filter, f.multicast)
  }

  /** The contents of the two frames. */
  datatype FramesView = FramesView(participants: seq<ParticipantRow>, endpoints: seq<EndpointRow>)

  /** The rows decoded from the blocks in order, up to the first block that raises, and whether one did. */
  function RowBlocks(domainId: string, kind: Kind, blocks: seq<seq<EndpointChild>>, owner: Option<string>): (seq<EndpointRow>, Outcome<Fault>)
  {
    if blocks == [] then ([], Pass)
    else
      var (rows, o) := RowBlocks(domainId, kind, blocks[..|blocks| - 1], owner);
      if o.Fail? then (rows, o)
      else
        match DecodeEndpoint(blocks[|blocks| - 1])
        case Failure(e) => (rows, Fail(e))
        case Success(f) => (rows + [EndpointRowOf(domainId, kind, f, owner)], Pass)
  }

  /**
   * One record: its participant row, then a row per publication, then a row
   * per subscription. A missing `domain_id` or `participant_data` raises
   * before any row is added.
   */
  function FileRows(v: FramesView, rec: ParticipantRecord): (FramesView, Outcome<Fault>)
  {
    if rec.domainId.None? then (v, Fail(MissingChild))
    else if rec.participantData.None? then (v, Fail(NoParticipantData))
    else
    var id := rec.domainId.value;
    match DecodeParticipant(rec.participantData.value)
    case Failure(e) => (v, Fail(e))
    case Success(f) =>
      var p := ParticipantRowOf(id, f);
      var (ws, o1) := RowBlocks(id, Writer, rec.publications, f.name);
      if o1.Fail? then (FramesView(v.participants + [p], v.endpoints + ws), o1)
      else
        var (rs, o2) := RowBlocks(id, Reader, rec.subscriptions, f.name);
        (FramesView(v.participants + [p], v.endpoints + ws + rs), o2)
  }

  /** All records in order, stopping at the first exception. */
  function FileAllRows(v: FramesView, recs: seq<ParticipantRecord>): (FramesView, Outcome<Fault>)
  {
    if recs == [] then (v, Pass)
    else
      var (w, o) := FileAllRows(v, recs[..|recs| - 1]);
      if o.Fail? then (w, o) else FileRows(w, recs[|recs| - 1])
  }

  /** participants_df and endpoints_df, which ProcessFile fills in place. */
  class Frames {
    var participants: seq<ParticipantRow>
    var endpoints: seq<EndpointRow>

    constructor()
      ensures participants == [] && endpoints == []
    {
      participants := [];
      endpoints := [];
    }

    ghost function View(): FramesView
      reads this
    {
      FramesView(participants, endpoints)
    }

    /** The body of ProcessFile's loop, for one record. */
    method AddRecord(rec: ParticipantRecord) returns (r: Outcome<Fault>)
      modifies this
      ensures (View(), r) == FileRows(old(View()), rec)
    {
      if rec.domainId.None? {
        return Fail(MissingChild);
      }
      var id := rec.domainId.value;
      if rec.participantData.None? {
        return Fail(NoParticipantData);
      }
      var parsed := ParseParticipant(rec.participantData.value);
      if parsed.Failure? {
        return Fail(parsed.error);
      }
      var participant := ParticipantRowOf(id, parsed.value);
      participants := participants + [participant];
      var i := 0;
      while i < |rec.publications|
        invariant 0 <= i <= |rec.publications|
        invariant RowBlocks(id, Writer, rec.publications[..i], participant.name).1 == Pass
        invariant participants == old(participants) + [participant]
        invariant endpoints == old(endpoints) + RowBlocks(id, Writer, rec.publications[..i], participant.name).0
      {
        assert rec.publications[..i + 1][..i] == rec.publications[..i];
        var block := ParseEndpoint(rec.publications[i]);
        if block.Failure? {
          RowsFailureSticks(id, Writer, rec.publications, participant.name, i + 1);
          return Fail(block.error);
        }
        endpoints := endpoints + [EndpointRowOf(id, Writer, block.value, participant.name)];
        i := i + 1;
      }
      assert rec.publications[..i] == rec.publications;
      ghost var writers := endpoints;
      i := 0;
      while i < |rec.subscriptions|
        invariant 0 <= i <= |rec.subscriptions|
        invariant RowBlocks(id, Reader, rec.subscriptions[..i], participant.name).1 == Pass
        invariant participants == old(participants) + [participant]
        invariant endpoints == writers + RowBlocks(id, Reader, rec.subscriptions[..i], participant.name).0
      {
        assert rec.subscriptions[..i + 1][..i] == rec.subscriptions[..i];
        var block := ParseEndpoint(rec.subscriptions[i]);
        if block.Failure? {
          RowsFailureSticks(id, Reader, rec.subscriptions, participant.name, i + 1);
          return Fail(block.error);
        }
        endpoints := endpoints + [EndpointRowOf(id, Reader, block.value, participant.name)];
        i := i + 1;
      }
      assert rec.subscriptions[..i] == rec.subscriptions;
      return Pass;
    }

    /** ProcessFile: every record of the snapshot, in document order. */
    method ProcessFile(recs: seq<ParticipantRecord>) returns (r: Outcome<Fault>)
      modifies this
      ensures (View(), r) == FileAllRows(old(View()), recs)
    {
      var i := 0;
      while i < |recs|
        invariant 0 <= i <= |recs|
        invariant FileAllRows(old(View()), recs[..i]) == (View(), Pass)
      {
        assert recs[..i + 1][..i] == recs[..i];
        r := AddRecord(recs[i]);
        if r.Fail? {
          AllRowsFailureSticks(old(View()), recs, i + 1);
          return;
        }
        i := i + 1;
      }
      assert recs[..i] == recs;
      return Pass;
    }
  }

  lemma {:induction false} RowsFailureSticks(domainId: string, kind: Kind, blocks: seq<seq<EndpointChild>>, owner: Option<string>, k: nat)
    requires k <= |blocks|
    requires RowBlocks(domainId, kind, blocks[..k], owner).1.Fail?
    ensures RowBlocks(domainId, kind, blocks, owner) == RowBlocks(domainId, kind, blocks[..k], owner)
    decreases |blocks| - k
  {
    if k < |blocks| {
      assert blocks[..k + 1][..k] == blocks[..k];
      RowsFailureSticks(domainId, kind, blocks, owner, k + 1);
    } else {
      assert blocks[..k] == blocks;
    }
  }

  lemma {:induction false} AllRowsFailureSticks(v: FramesView, recs: seq<ParticipantRecord>, k: nat)
    requires k <= |recs|
    requires FileAllRows(v, recs[..k]).1.Fail?
    ensures FileAllRows(v, recs) == FileAllRows(v, recs[..k])
    decreases |recs| - k
  {
    if k < |recs| {
      assert recs[..k + 1][..k] == recs[..k];
      AllRowsFailureSticks(v, recs, k + 1);
    } else {
      assert recs[..k] == recs;
    }
  }

  /** The row of a spreadsheet-analyser endpoint, with the owner's name in the participantKey column. */
  function RowOf(domainId: string, e: Endpoint): EndpointRow
  {
    EndpointRow(domainId, e.kind, e.topic, e.typeName, e.participant.name, e.reliable, e.maxSize, e.deadline, e.filter, e.multicast)
  }

  function RowsOf(domainId: string, es: seq<Endpoint>): (r: seq<EndpointRow>)
    ensures |r| == |es| && forall i :: 0 <= i < |es| ==> r[i] == RowOf(domainId, es[i])
  {
    seq(|es|, i requires 0 <= i < |es| => RowOf(domainId, es[i]))
  }

  /** The row of a spreadsheet-analyser participant. */
  function ParticipantRowFor(domainId: string, p: Participant): ParticipantRow
  {
    ParticipantRow(domainId, p.name, p.key, p.device.ip, p.device.name, p.path)
  }

  lemma {:induction false} BlocksAgree(domainId: string, kind: Kind, blocks: seq<seq<EndpointChild>>, owner: Participant)
    ensures RowBlocks(domainId, kind, blocks, owner.name).1 == DecodeBlocks(kind, blocks, owner).1
    ensures RowBlocks(domainId, kind, blocks, owner.name).0 == RowsOf(domainId, DecodeBlocks(kind, blocks, owner).0)
  {
    if blocks != [] {
      BlocksAgree(domainId, kind, blocks[..|blocks| - 1], owner);
      var es := DecodeBlocks(kind, blocks[..|blocks| - 1], owner).0;
      match DecodeEndpoint(blocks[|blocks| - 1])
      case Failure(_) =>
      case Success(f) =>
        assert RowsOf(domainId, es + [EndpointOf(kind, f, owner)]) == RowsOf(domainId, es) + [EndpointRowOf(domainId, kind, f, owner.name)];
    }
  }

  /**
   * Both analysers decode a record alike: the same exception, if any, and
   * the rows of the v3 frames are the rows of the Domain's participant and
   * endpoints, the owner's name standing in the participantKey column. A
   * record without a `domain_id` adds nothing to either.
   */
  lemma RecordAgrees(rec: ParticipantRecord)
    ensures var (v, o) := FileRows(FramesView([], []), rec);
      var (w, o') := FileRecord(map[], rec);
      o == o'
      && (rec.domainId.None? ==> v == FramesView([], []) && w == map[])
      && (rec.domainId.Some? ==>
            var id := rec.domainId.value;
            var d := w[id];
            |v.participants| == |d.participants|
            && (forall i :: 0 <= i < |d.participants| ==> v.participants[i] == ParticipantRowFor(id, d.participants[i]))
            && v.endpoints == RowsOf(id, d.endpoints))
  {
    if rec.domainId.Some? {
      DomainRowsAgree(rec.domainId.value, rec);
    }
  }

  /** RecordAgrees once the record names its domain: the rows against the Domain it fills. */
  lemma DomainRowsAgree(id: string, rec: ParticipantRecord)
    requires rec.domainId == Some(id)
    ensures var (v, o) := FileRows(FramesView([], []), rec);
      var (d, o') := FileIntoDomain(EmptyDomain, rec);
      o == o'
      && |v.participants| == |d.participants|
      && (forall i :: 0 <= i < |d.participants| ==> v.participants[i] == ParticipantRowFor(id, d.participants[i]))
      && v.endpoints == RowsOf(id, d.endpoints)
  {
    if rec.participantData.Some? {
      match DecodeParticipant(rec.participantData.value)
      case Failure(_) =>
      case Success(f) =>
        var p := ParticipantOf(f);
        BlocksAgree(id, Writer, rec.publications, p);
        BlocksAgree(id, Reader, rec.subscriptions, p);
        var ws := DecodeBlocks(Writer, rec.publications, p).0;
        var rs := DecodeBlocks(Reader, rec.subscriptions, p).0;
        assert RowsOf(id, ws + rs) == RowsOf(id, ws) + RowsOf(id, rs);
    }
  }

  lemma {:induction false} BlockRowsAreOwned(domainId: string, kind: Kind, blocks: seq<seq<EndpointChild>>, owner: Option<string>)
    ensures var (rows, o) := RowBlocks(domainId, kind, blocks, owner);
      (o == Pass ==> |rows| == |blocks|)
      && forall r :: r in rows ==> r.participantKey == owner && r.kind == kind && r.domainId == domainId
  {
    if blocks != [] {
      BlockRowsAreOwned(domainId, kind, blocks[..|blocks| - 1], owner);
    }
  }

  /**
   * A record that decodes adds one participant row and one endpoint row
   * per publication and subscription, writers first; every endpoint row
   * names the participant by its name, not its key.
   */
  lemma RecordRows(v: FramesView, rec: ParticipantRecord)
    requires FileRows(v, rec).1 == Pass
    ensures var w := FileRows(v, rec).0;
      |w.participants| == |v.participants| + 1
      && w.participants[..|v.participants|] == v.participants
      && |w.endpoints| == |v.endpoints| + |rec.publications| + |rec.subscriptions|
      && w.endpoints[..|v.endpoints|] == v.endpoints
      && (forall i :: |v.endpoints| <= i < |w.endpoints| ==>
            w.endpoints[i].participantKey == w.participants[|v.participants|].name
            && rec.domainId == Some(w.endpoints[i].domainId)
            && w.endpoints[i].kind == (if i < |v.endpoints| + |rec.publications| then Writer else Reader))
  {
    var id := rec.domainId.value;
    var f := DecodeParticipant(rec.participantData.value).value;
    BlockRowsAreOwned(id, Writer, rec.publications, f.name);
    BlockRowsAreOwned(id, Reader, rec.subscriptions, f.name);
    var ws := RowBlocks(id, Writer, rec.publications, f.name).0;
    var rs := RowBlocks(id, Reader, rec.subscriptions, f.name).0;
    var w := FileRows(v, rec).0;
    assert w.endpoints == v.endpoints + ws + rs;
    forall i | |v.endpoints| <= i < |w.endpoints|
      ensures w.endpoints[i].participantKey == f.name && w.endpoints[i].domainId == id
      ensures w.endpoints[i].kind == (if i < |v.endpoints| + |rec.publications| then Writer else Reader)
    {
      if i < |v.endpoints| + |ws| {
        assert w.endpoints[i] == ws[i - |v.endpoints|];
        assert ws[i - |v.endpoints|] in ws;
      } else {
        assert w.endpoints[i] == rs[i - |v.endpoints| - |ws|];
        assert rs[i - |v.endpoints| - |ws|] in rs;
      }
    }
  }

  /** The number of publication and subscription blocks of the records. */
  function BlockCount(recs: seq<ParticipantRecord>): nat
  {
    if recs == [] then 0
    else BlockCount(recs[..|recs| - 1]) + |recs[|recs| - 1].publications| + |recs[|recs| - 1].subscriptions|
  }

  /** A snapshot that decodes adds exactly one participant row per record and one endpoint row per block. */
  lemma {:induction false} FileRowCounts(v: FramesView, recs: seq<ParticipantRecord>)
    requires FileAllRows(v, recs).1 == Pass
    ensures |FileAllRows(v, recs).0.participants| == |v.participants| + |recs|
    ensures |FileAllRows(v, recs).0.endpoints| == |v.endpoints| + BlockCount(recs)
  {
    if recs != [] {
      FileRowCounts(v, recs[..|recs| - 1]);
      RecordRows(FileAllRows(v, recs[..|recs| - 1]).0, recs[|recs| - 1]);
    }
  }
}
