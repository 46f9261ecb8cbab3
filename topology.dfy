/**
 * Topology accumulation: ProcessFile walks the `domain_participants`
 * elements of a snapshot and files each participant and its endpoints under
 * the Domain object of its domain id, creating that object on first sight.
 */
module Topology {
  import opened Wrappers
  import opened Seqs
  import opened Records

  /**
   * One `domain_participants/value/element`: the text of its `domain_id`
   * child and the children of its `participant_data` child, each None when
   * that child is missing, and the children of each `publication_data` and
   * `subscription_data` block below it, in document order.
   */
  datatype ParticipantRecord = ParticipantRecord(
    domainId: Option<string>,
    participantData: Option<seq<ParticipantChild>>,
    publications: seq<seq<EndpointChild>>,
    subscriptions: seq<seq<EndpointChild>>)

  /** The contents of one Domain object. */
  datatype DomainView = DomainView(participants: seq<Participant>, endpoints: seq<Endpoint>)

  /** A domain: its id, and the participants and endpoints filed under it so far. */
  class Domain {
    const id: string
    var participants: seq<Participant>
    var endpoints: seq<Endpoint>

    constructor(id: string)
      ensures this.id == id && participants == [] && endpoints == []
    {
      this.id := id;
      participants := [];
      endpoints := [];
    }

    ghost function View(): DomainView
      reads this
    {
      DomainView(participants, endpoints)
    }

    /** The body of ProcessFile's loop once the domain is found: one participant and its endpoints. */
    method File(rec: ParticipantRecord) returns (r: Outcome<Fault>)
      modifies this
      ensures (View(), r) == FileIntoDomain(old(View()), rec)
    {
      if rec.participantData.None? {
        return Fail(NoParticipantData);
      }
      var parsed := ParseParticipant(rec.participantData.value);
      if parsed.Failure? {
        return Fail(parsed.error);
      }
      var participant := ParticipantOf(parsed.value);
      participants := participants + [participant];
      r := FileBlocks(Writer, rec.publications, participant);
      if r.Fail? {
        return;
      }
      r := FileBlocks(Reader, rec.subscriptions, participant);
    }

    /** One of File's two loops: the endpoint blocks of one kind, up to the first that raises. */
    method FileBlocks(kind: Kind, blocks: seq<seq<EndpointChild>>, participant: Participant) returns (r: Outcome<Fault>)
      modifies this
      ensures participants == old(participants)
      ensures (endpoints, r) == (old(endpoints) + DecodeBlocks(kind, blocks, participant).0, DecodeBlocks(kind, blocks, participant).1)
    {
      var i := 0;
      while i < |blocks|
        invariant 0 <= i <= |blocks|
        invariant DecodeBlocks(kind, blocks[..i], participant).1 == Pass
        invariant participants == old(participants)
        invariant endpoints == old(endpoints) + DecodeBlocks(kind, blocks[..i], participant).0
      {
        assert blocks[..i + 1][..i] == blocks[..i];
        var block := ParseEndpoint(blocks[i]);
        if block.Failure? {
          BlocksFailureSticks(kind, blocks, participant, i + 1);
          return Fail(block.error);
        }
        endpoints := endpoints + [EndpointOf(kind, block.value, participant)];
        i := i + 1;
      }
      assert blocks[..i] == blocks;
      return Pass;
    }
  }

  const EmptyDomain := DomainView([], [])

  /**
   * The endpoints decoded from the blocks in order, up to the first block
   * that raises, and whether one did.
   */
  function DecodeBlocks(kind: Kind, blocks: seq<seq<EndpointChild>>, owner: Participant): (seq<Endpoint>, Outcome<Fault>)
  {
    if blocks == [] then ([], Pass)
    else
      var (es, o) := DecodeBlocks(kind, blocks[..|blocks| - 1], owner);
      if o.Fail? then (es, o)
      else
        match DecodeEndpoint(blocks[|blocks| - 1])
        case Failure(e) => (es, Fail(e))
        case Success(f) => (es + [EndpointOf(kind, f, owner)], Pass)
  }

  /**
   * One record filed into its domain: the participant appended, then its
   * writers, then its readers. An exception leaves in place whatever was
   * filed before it.
   */
  function FileIntoDomain(d: DomainView, rec: ParticipantRecord): (DomainView, Outcome<Fault>)
  {
    if rec.participantData.None? then (d, Fail(NoParticipantData))
    else
    match DecodeParticipant(rec.participantData.value)
    case Failure(e) => (d, Fail(e))
    case Success(f) =>
      var p := ParticipantOf(f);
      var (ws, o1) := DecodeBlocks(Writer, rec.publications, p);
      if o1.Fail? then (DomainView(d.participants + [p], d.endpoints + ws), o1)
      else
        var (rs, o2) := DecodeBlocks(Reader, rec.subscriptions, p);
        (DomainView(d.participants + [p], d.endpoints + ws + rs), o2)
  }

  /**
   * One record filed into the domains. A missing `domain_id` raises before
   * anything is filed; otherwise its domain is created first, even when
   * decoding then raises.
   */
  function FileRecord(v: map<string, DomainView>, rec: ParticipantRecord): (map<string, DomainView>, Outcome<Fault>)
  {
    match rec.domainId
    case None => (v, Fail(MissingChild))
    case Some(id) =>
      var d := if id in v then v[id] else EmptyDomain;
      var (d', o) := FileIntoDomain(d, rec);
      (v[id := d'], o)
  }

  /** All records filed in order, stopping at the first exception. */
  function FileRecords(v: map<string, DomainView>, recs: seq<ParticipantRecord>): (map<string, DomainView>, Outcome<Fault>)
  {
    if recs == [] then (v, Pass)
    else
      var (w, o) := FileRecords(v, recs[..|recs| - 1]);
      if o.Fail? then (w, o) else FileRecord(w, recs[|recs| - 1])
  }

  /** The module-level `domains` dictionary, and the `devices` one that extract_tables writes. */
  class Snapshot {
    var domains: map<string, Domain>
    var devices: map<string, Option<string>>

    constructor()
      ensures domains == map[] && devices == map[]
    {
      domains := map[];
      devices := map[];
    }

    /** Every Domain is filed under its own id, so distinct ids hold distinct objects. */
    ghost predicate Valid()
      reads this, domains.Values
    {
      forall k :: k in domains ==> domains[k].id == k
    }

    ghost function View(): map<string, DomainView>
      reads this, domains.Values
    {
      map k | k in domains :: DomainView(domains[k].participants, domains[k].endpoints)
    }

    /** The Domain object of an id, created and filed on first sight. */
    method DomainFor(id: string) returns (domain: Domain)
      requires Valid()
      modifies this
      ensures Valid() && id in domains && domains[id] == domain
      ensures View() == old(View())[id := if id in old(View()) then old(View())[id] else EmptyDomain]
      ensures devices == old(devices)
      ensures forall d :: d in domains.Values ==> d in old(domains.Values) || fresh(d)
    {
      if id in domains {
        domain := domains[id];
      } else {
        domain := new Domain(id);
        domains := domains[id := domain];
      }
    }

    /** The body of ProcessFile's loop, for one record. */
    method FileOne(rec: ParticipantRecord) returns (r: Outcome<Fault>)
      requires Valid()
      modifies this, domains.Values
      ensures Valid()
      ensures (View(), r) == FileRecord(old(View()), rec)
      ensures devices == old(devices)
      ensures forall d :: d in domains.Values ==> d in old(domains.Values) || fresh(d)
    {
      if rec.domainId.None? {
        return Fail(MissingChild);
      }
      var id := rec.domainId.value;
      var domain := DomainFor(id);
      ghost var filed := View();
      ghost var base := filed[id];
      assert domain.View() == base;
      r := domain.File(rec);
      assert (domain.View(), r) == FileIntoDomain(base, rec);
      assert View() == filed[id := domain.View()];
      assert View() == old(View())[id := domain.View()];
    }

    /** ProcessFile: every record of the snapshot, in document order. */
    method ProcessFile(recs: seq<ParticipantRecord>) returns (r: Outcome<Fault>)
      requires Valid()
      modifies this, domains.Values
      ensures Valid()
      ensures (View(), r) == FileRecords(old(View()), recs)
      ensures devices == old(devices)
    {
      var i := 0;
      while i < |recs|
        invariant 0 <= i <= |recs|
        invariant Valid()
        invariant (View(), Pass) == FileRecords(old(View()), recs[..i])
        invariant devices == old(devices)
        invariant forall d :: d in domains.Values ==> d in old(domains.Values) || fresh(d)
      {
        assert recs[..i + 1][..i] == recs[..i];
        var o := FileOne(recs[i]);
        if o.Fail? {
          RecordsFailureSticks(old(View()), recs, i + 1);
          assert recs[..|recs|] == recs;
          return o;
        }
        i := i + 1;
      }
      assert recs[..i] == recs;
      return Pass;
    }
  }

  lemma {:induction false} BlocksFailureSticks(kind: Kind, blocks: seq<seq<EndpointChild>>, owner: Participant, k: nat)
    requires k <= |blocks|
    requires DecodeBlocks(kind, blocks[..k], owner).1.Fail?
    ensures DecodeBlocks(kind, blocks, owner) == DecodeBlocks(kind, blocks[..k], owner)
    decreases |blocks| - k
  {
    if k == |blocks| {
      assert blocks[..k] == blocks;
    } else {
      assert blocks[..k + 1][..k] == blocks[..k];
      BlocksFailureSticks(kind, blocks, owner, k + 1);
    }
  }

  lemma {:induction false} RecordsFailureSticks(v: map<string, DomainView>, recs: seq<ParticipantRecord>, k: nat)
    requires k <= |recs|
    requires FileRecords(v, recs[..k]).1.Fail?
    ensures FileRecords(v, recs) == FileRecords(v, recs[..k])
    decreases |recs| - k
  {
    if k == |recs| {
      assert recs[..k] == recs;
    } else {
      assert recs[..k + 1][..k] == recs[..k];
      RecordsFailureSticks(v, recs, k + 1);
    }
  }

  // ------------------------------------------------------------ facts

  /**
   * Endpoint decoding passes iff every block decodes; then there is one
   * endpoint per block, in block order, of the given kind and owner.
   */
  lemma {:induction false} BlocksDecoded(kind: Kind, blocks: seq<seq<EndpointChild>>, owner: Participant)
    ensures var (es, o) := DecodeBlocks(kind, blocks, owner);
      (o == Pass <==> forall i :: 0 <= i < |blocks| ==> DecodeEndpoint(blocks[i]).Success?)
      && (o == Pass ==>
            |es| == |blocks|
            && forall i :: 0 <= i < |blocks| ==> es[i] == EndpointOf(kind, DecodeEndpoint(blocks[i]).value, owner))
  {
    if blocks != [] {
      var init := blocks[..|blocks| - 1];
      BlocksDecoded(kind, init, owner);
      var (es, o) := DecodeBlocks(kind, init, owner);
      if o == Pass {
        forall i | 0 <= i < |init| ensures init[i] == blocks[i] { }
      } else {
        var i :| 0 <= i < |init| && !DecodeEndpoint(init[i]).Success?;
        assert blocks[i] == init[i];
      }
    }
  }

  /**
   * A record filed without an exception adds its participant at the end of
   * the domain's participants, and its writers then its readers at the end
   * of the domain's endpoints, all owned by that participant.
   */
  lemma FiledInOrder(d: DomainView, rec: ParticipantRecord)
    requires FileIntoDomain(d, rec).1 == Pass
    ensures rec.participantData.Some? && DecodeParticipant(rec.participantData.value).Success?
    ensures var p := ParticipantOf(DecodeParticipant(rec.participantData.value).value);
      var d' := FileIntoDomain(d, rec).0;
      var n, w := |d.endpoints|, |rec.publications|;
      d'.participants == d.participants + [p]
      && |d'.endpoints| == n + w + |rec.subscriptions|
      && d'.endpoints[..n] == d.endpoints
      && (forall i :: n <= i < n + w ==> d'.endpoints[i].kind == Writer && d'.endpoints[i].participant == p)
      && (forall i :: n + w <= i < |d'.endpoints| ==> d'.endpoints[i].kind == Reader && d'.endpoints[i].participant == p)
  {
    var p := ParticipantOf(DecodeParticipant(rec.participantData.value).value);
    BlocksDecoded(Writer, rec.publications, p);
    BlocksDecoded(Reader, rec.subscriptions, p);
  }

  function DomainIds(recs: seq<ParticipantRecord>): set<string>
  {
    set i | 0 <= i < |recs| && recs[i].domainId.Some? :: recs[i].domainId.value
  }

  function InDomain(id: string): ParticipantRecord -> bool
  {
    (r: ParticipantRecord) => r.domainId == Some(id)
  }

  /** Filing never removes a domain, and the record's domain always exists afterwards, even when decoding raised. */
  lemma {:induction false} DomainsCreated(v: map<string, DomainView>, recs: seq<ParticipantRecord>)
    ensures var (w, o) := FileRecords(v, recs);
      v.Keys <= w.Keys && w.Keys <= v.Keys + DomainIds(recs)
      && (o == Pass ==> w.Keys == v.Keys + DomainIds(recs))
  {
    if recs != [] {
      var init := recs[..|recs| - 1];
      DomainsCreated(v, init);
      var last := recs[|recs| - 1];
      assert DomainIds(recs) == DomainIds(init) + (if last.domainId.Some? then {last.domainId.value} else {}) by {
        forall i | 0 <= i < |init| ensures init[i] == recs[i] { }
      }
    }
  }

  /**
   * The two unguarded lookups of ProcessFile's loop: a missing `domain_id`
   * raises AttributeError before any domain is touched, and a missing
   * `participant_data` raises TypeError in parse_participant, after the
   * domain was created and before anything is filed in it.
   */
  lemma MissingChildrenRaise(v: map<string, DomainView>, rec: ParticipantRecord)
    ensures rec.domainId.None? ==> FileRecord(v, rec) == (v, Fail(MissingChild))
    ensures rec.domainId.Some? && rec.participantData.None? ==>
              var id := rec.domainId.value;
              FileRecord(v, rec) == (v[id := if id in v then v[id] else EmptyDomain], Fail(NoParticipantData))
  {
  }

  /**
   * Filing from no domains without an exception gives each domain exactly
   * one participant per record carrying its id.
   */
  lemma {:induction false} OneParticipantPerRecord(recs: seq<ParticipantRecord>, id: string)
    requires FileRecords(map[], recs).1 == Pass
    ensures var w := FileRecords(map[], recs).0;
      (id in w ==> |w[id].participants| == Count(recs, InDomain(id)))
      && (id !in w ==> Count(recs, InDomain(id)) == 0)
  {
    if recs != [] {
      var init := recs[..|recs| - 1];
      var rec := recs[|recs| - 1];
      var (w0, o0) := FileRecords(map[], init);
      assert o0 == Pass;
      OneParticipantPerRecord(init, id);
      var id' := rec.domainId.value;
      FiledInOrder(if id' in w0 then w0[id'] else EmptyDomain, rec);
    }
  }
}
