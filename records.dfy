/**
 * Record decoding: one `participant_data` block, or one `publication_data`
 * or `subscription_data` block, read child by child into the fields of a
 * participant or an endpoint. Both analysers (the spreadsheet one and the
 * data-frame one) walk the children identically; only what they build from
 * the fields differs, so the walk is modelled once.
 */
module Records {
  import opened Wrappers
  import opened Text
  import opened Locator

  // ------------------------------------------------------------ entities

  datatype Kind = Writer | Reader

  /** A host: its `dds.sys_info.hostname` property and its IPv4 address. */
  datatype Device = Device(name: Option<string>, ip: string)

  /** A domain participant, immutable once decoded. */
  datatype Participant = Participant(name: Option<string>, key: Option<string>, device: Device, path: Option<string>)

  /** The deadline column: no deadline child, the infinite sentinel (stored as ""), or a finite period. */
  datatype Deadline = Unset | Infinite | Finite(sec: nat, nanosec: nat) {
    function Seconds(): real
      requires Finite?
    {
      sec as real + nanosec as real / 1000000000.0
    }
  }

  /**
   * A writer or reader. The serialized-size text is kept raw ("" when the
   * record reports none) because it is converted only when aggregated.
   */
  datatype Endpoint = Endpoint(
    kind: Kind,
    topic: Option<string>,
    typeName: Option<string>,
    participant: Participant,
    reliable: Option<string>,
    maxSize: string,
    deadline: Deadline,
    filter: Option<string>,
    multicast: Option<string>)

  /** The name shown for a participant: its name, or its key when it has none. */
  function Label(p: Participant): (r: Option<string>)
    ensures p.name.Some? ==> r == p.name
    ensures p.name.None? ==> r == p.key
  {
    if p.name.None? then p.key else p.name
  }

  // ------------------------------------------------------------ source elements

  /** One `element` of the `property` list: the text of its `name` and `value` children. */
  datatype PropertyElement = PropertyElement(name: Option<string>, value: Option<string>)

  /**
   * The children of `participant_data` that the decoder reads; all other tags
   * are OtherParticipantChild. A `key` child carries the text of its `value`
   * child, None when that child is missing.
   */
  datatype ParticipantChild =
    | KeyChild(value: Option<string>)
    | NameChild(name: Option<string>)
    | PropertyChild(elements: seq<PropertyElement>, name: Option<string>)
    | UnicastLocatorsChild(locators: seq<LocatorElement>)
    | OtherParticipantChild

  /**
   * The children of `publication_data` / `subscription_data` that the decoder
   * reads. A `reliability` child carries the text of its `kind` child and a
   * `deadline` child those of `period/sec` and `period/nanosec`, each None
   * when that child is missing.
   */
  datatype EndpointChild =
    | TopicNameChild(text: string)
    | TypeNameChild(text: string)
    | MaxSizeChild(text: string)
    | ReliabilityChild(kind: Option<string>)
    | DeadlineChild(sec: Option<string>, nanosec: Option<string>)
    | ContentFilterChild(expression: Option<string>)
    | MulticastLocatorsChild(locators: seq<LocatorElement>)
    | OtherEndpointChild

  const HostnameProperty: string := "dds.sys_info.hostname"
  const FilepathProperty: string := "dds.sys_info.executable_filepath"
  const InfiniteSec: string := "DURATION_INFINITE_SEC"
  const InfiniteNsec: string := "DURATION_INFINITE_NSEC"

  // ------------------------------------------------------------ participant

  /** The locals of parse_participant. */
  datatype ParticipantScan = ParticipantScan(
    name: Option<string>,
    key: Option<string>,
    propName: Option<string>,
    propValue: Option<string>,
    hostname: Option<string>,
    filepath: Option<string>,
    unicast: UnicastState)

  const InitialParticipantScan := ParticipantScan(None, None, None, None, None, None, UnicastState(None, None))

  /**
   * One property element. Its name and value persist into later elements
   * when an element lacks them, so a hostname property with no value picks
   * up the value seen before it.
   */
  function PropertyStep(st: ParticipantScan, e: PropertyElement): ParticipantScan
  {
    var pn := if e.name.Some? then e.name else st.propName;
    var pv := if e.value.Some? then e.value else st.propValue;
    st.(propName := pn, propValue := pv,
        hostname := if pn == Some(HostnameProperty) then pv else st.hostname,
        filepath := if pn == Some(FilepathProperty) then pv else st.filepath)
  }

  function PropertiesScan(st: ParticipantScan, elements: seq<PropertyElement>): ParticipantScan
  {
    if elements == [] then st
    else PropertyStep(PropertiesScan(st, elements[..|elements| - 1]), elements[|elements| - 1])
  }

  function ParticipantStep(st: ParticipantScan, c: ParticipantChild): Result<ParticipantScan, Fault>
  {
    match c
    case KeyChild(v) => if v.None? then Failure(MissingChild) else Success(st.(key := v))
    case NameChild(n) => Success(if n.Some? then st.(name := n) else st)
    case PropertyChild(elements, n) =>
      var after := PropertiesScan(st, elements);
      Success(if n.Some? then after.(name := n) else after)
    case UnicastLocatorsChild(locs) =>
      (match UnicastScan(locs, st.unicast)
       case Failure(e) => Failure(e)
       case Success(u) => Success(st.(unicast := u)))
    case OtherParticipantChild => Success(st)
  }

  /** The locals after the loop over the first |children| children, or the exception it raised. */
  function ScanParticipant(children: seq<ParticipantChild>): Result<ParticipantScan, Fault>
  {
    if children == [] then Success(InitialParticipantScan)
    else
      match ScanParticipant(children[..|children| - 1])
      case Failure(e) => Failure(e)
      case Success(st) => ParticipantStep(st, children[|children| - 1])
  }

  /** What parse_participant hands on, in the order the data-frame analyser lists it. */
  datatype ParticipantFields = ParticipantFields(
    name: Option<string>,
    key: Option<string>,
    ip: string,
    hostname: Option<string>,
    filepath: Option<string>)

  /**
   * The decoded participant; reading `ip_str` when no UDPv4 locator assigned
   * it raises UnboundLocalError.
   */
  function DecodeParticipant(children: seq<ParticipantChild>): Result<ParticipantFields, Fault>
  {
    match ScanParticipant(children)
    case Failure(e) => Failure(e)
    case Success(st) =>
      if st.unicast.ip.None? then Failure(IpUnbound)
      else Success(ParticipantFields(st.name, st.key, st.unicast.ip.value, st.hostname, st.filepath))
  }

  /** parse_participant: the walk over the children of `participant_data`. */
  method ParseParticipant(children: seq<ParticipantChild>) returns (r: Result<ParticipantFields, Fault>)
    ensures r == DecodeParticipant(children)
  {
    var name, key, propName, propValue, hostname, filepath := None, None, None, None, None, None;
    var unicast := UnicastState(None, None);
    var i := 0;
    while i < |children|
      invariant 0 <= i <= |children|
      invariant ScanParticipant(children[..i])
             == Success(ParticipantScan(name, key, propName, propValue, hostname, filepath, unicast))
    {
      var child := children[i];
      assert children[..i + 1][..i] == children[..i];
      match child {
        case KeyChild(v) =>
          if v.None? {
            ParticipantFailureSticks(children, i + 1);
            return Failure(MissingChild);
          }
          key := v;
        case NameChild(n) =>
          if n.Some? {
            name := n;
          }
        case PropertyChild(elements, n) =>
          ghost var before := ParticipantScan(name, key, propName, propValue, hostname, filepath, unicast);
          var j := 0;
          while j < |elements|
            invariant 0 <= j <= |elements|
            invariant PropertiesScan(before, elements[..j])
                   == ParticipantScan(name, key, propName, propValue, hostname, filepath, unicast)
          {
            var element := elements[j];
            assert elements[..j + 1][..j] == elements[..j];
            if element.name.Some? {
              propName := element.name;
            }
            if element.value.Some? {
              propValue := element.value;
            }
            if propName == Some(HostnameProperty) {
              hostname := propValue;
            }
            if propName == Some(FilepathProperty) {
              filepath := propValue;
            }
            j := j + 1;
          }
          assert elements[..j] == elements;
          if n.Some? {
            name := n;
          }
        case UnicastLocatorsChild(locs) =>
          var scanned := ScanUnicast(locs, unicast);
          if scanned.Failure? {
            ParticipantFailureSticks(children, i + 1);
            return Failure(scanned.error);
          }
          unicast := scanned.value;
        case OtherParticipantChild =>
      }
      i := i + 1;
    }
    assert children[..i] == children;
    if unicast.ip.None? {
      return Failure(IpUnbound);
    }
    return Success(ParticipantFields(name, key, unicast.ip.value, hostname, filepath));
  }

  /** An exception ends the walk: the children after it are never read. */
  lemma {:induction false} ParticipantFailureSticks(children: seq<ParticipantChild>, k: nat)
    requires k <= |children|
    requires ScanParticipant(children[..k]).Failure?
    ensures ScanParticipant(children) == ScanParticipant(children[..k])
    decreases |children| - k
  {
    if k == |children| {
      assert children[..k] == children;
    } else {
      assert children[..k + 1][..k] == children[..k];
      ParticipantFailureSticks(children, k + 1);
    }
  }

  // ------------------------------------------------------------ endpoint

  /** The deadline rule: either sentinel makes it infinite, otherwise sec + nanosec / 10^9. */
  function DecodeDeadline(sec: string, nanosec: string): (r: Result<Deadline, Fault>)
    ensures r == Success(Infinite) <==> sec == InfiniteSec || nanosec == InfiniteNsec
    ensures r.Failure? <==> sec != InfiniteSec && nanosec != InfiniteNsec
                             && (ParseDecimal(sec).None? || ParseDecimal(nanosec).None?)
  {
    if sec == InfiniteSec || nanosec == InfiniteNsec then Success(Infinite)
    else
      match (ParseDecimal(sec), ParseDecimal(nanosec))
      case (Some(s), Some(n)) => Success(Finite(s, n))
      case _ => Failure(BadDecimal)
  }

  /** The locals of parse_endpoint that reach the result. */
  datatype EndpointFields = EndpointFields(
    topic: Option<string>,
    typeName: Option<string>,
    reliable: Option<string>,
    maxSize: string,
    deadline: Deadline,
    filter: Option<string>,
    multicast: Option<string>)

  const InitialEndpointFields := EndpointFields(None, None, None, "", Unset, None, None)

  function EndpointStep(f: EndpointFields, c: EndpointChild): Result<EndpointFields, Fault>
  {
    match c
    case TopicNameChild(t) => Success(f.(topic := Some(t)))
    case TypeNameChild(t) => Success(f.(typeName := Some(t)))
    case MaxSizeChild(t) => Success(f.(maxSize := t))
    case ReliabilityChild(k) => if k.None? then Failure(MissingChild) else Success(f.(reliable := k))
    case DeadlineChild(sec, nanosec) =>
      if sec.None? || nanosec.None? then Failure(MissingChild)
      else
        (match DecodeDeadline(sec.value, nanosec.value)
         case Failure(e) => Failure(e)
         case Success(d) => Success(f.(deadline := d)))
    case ContentFilterChild(e) => Success(if e.Some? then f.(filter := e) else f)
    case MulticastLocatorsChild(locs) =>
      (match MulticastScan(locs, f.multicast)
       case Failure(e) => Failure(e)
       case Success(m) => Success(f.(multicast := m)))
    case OtherEndpointChild => Success(f)
  }

  /** The fields after the loop over the children, or the exception it raised. */
  function DecodeEndpoint(children: seq<EndpointChild>): Result<EndpointFields, Fault>
  {
    if children == [] then Success(InitialEndpointFields)
    else
      match DecodeEndpoint(children[..|children| - 1])
      case Failure(e) => Failure(e)
      case Success(f) => EndpointStep(f, children[|children| - 1])
  }

  /** An exception ends the walk: the children after it are never read. */
  lemma {:induction false} EndpointFailureSticks(children: seq<EndpointChild>, k: nat)
    requires k <= |children|
    requires DecodeEndpoint(children[..k]).Failure?
    ensures DecodeEndpoint(children) == DecodeEndpoint(children[..k])
    decreases |children| - k
  {
    if k == |children| {
      assert children[..k] == children;
    } else {
      assert children[..k + 1][..k] == children[..k];
      EndpointFailureSticks(children, k + 1);
    }
  }

  /** parse_endpoint: the walk over the children of one publication or subscription block. */
  method ParseEndpoint(children: seq<EndpointChild>) returns (r: Result<EndpointFields, Fault>)
    ensures r == DecodeEndpoint(children)
  {
    var topic, typeName, reliable, deadline, filter, multicast := None, None, None, Unset, None, None;
    var maxSize := "";
    var i := 0;
    while i < |children|
      invariant 0 <= i <= |children|
      invariant DecodeEndpoint(children[..i])
             == Success(EndpointFields(topic, typeName, reliable, maxSize, deadline, filter, multicast))
    {
      var child := children[i];
      assert children[..i + 1][..i] == children[..i];
      match child {
        case TopicNameChild(t) =>
          topic := Some(t);
        case TypeNameChild(t) =>
          typeName := Some(t);
        case MaxSizeChild(t) =>
          maxSize := t;
        case ReliabilityChild(k) =>
          if k.None? {
            EndpointFailureSticks(children, i + 1);
            return Failure(MissingChild);
          }
          reliable := k;
        case DeadlineChild(sec, nanosec) =>
          if sec.None? || nanosec.None? {
            EndpointFailureSticks(children, i + 1);
            return Failure(MissingChild);
          }
          if sec.value == InfiniteSec || nanosec.value == InfiniteNsec {
            deadline := Infinite;
          } else {
            var s := ParseDecimal(sec.value);
            var n := ParseDecimal(nanosec.value);
            if s.None? || n.None? {
              EndpointFailureSticks(children, i + 1);
              return Failure(BadDecimal);
            }
            deadline := Finite(s.value, n.value);
          }
        case ContentFilterChild(e) =>
          if e.Some? {
            filter := e;
          }
        case MulticastLocatorsChild(locs) =>
          var scanned := ScanMulticast(locs, multicast);
          if scanned.Failure? {
            EndpointFailureSticks(children, i + 1);
            return Failure(scanned.error);
          }
          multicast := scanned.value;
        case OtherEndpointChild =>
      }
      i := i + 1;
    }
    assert children[..i] == children;
    return Success(EndpointFields(topic, typeName, reliable, maxSize, deadline, filter, multicast));
  }

  // ------------------------------------------------------------ record facts

  /** The key is the value of the last `key` child; with no `key` child it stays None. */
  lemma KeyIsLastKeyChild(children: seq<ParticipantChild>)
    requires ScanParticipant(children).Success?
    ensures var st := ScanParticipant(children).value;
      (st.key.None? <==> forall i :: 0 <= i < |children| ==> !children[i].KeyChild?)
      && (st.key.Some? ==> exists i :: 0 <= i < |children| && children[i] == KeyChild(st.key)
                             && forall j :: i < j < |children| ==> !children[j].KeyChild?)
  {
    ScanKey(children);
    LastKeyMeaning(children);
    KeyChildrenHaveValues(children);
  }

  /** The value of the last `key` child, None when there is none. */
  function LastKey(children: seq<ParticipantChild>): Option<string>
  {
    if children == [] then None
    else if children[|children| - 1].KeyChild? then children[|children| - 1].value
    else LastKey(children[..|children| - 1])
  }

  lemma {:induction false} ScanKey(children: seq<ParticipantChild>)
    requires ScanParticipant(children).Success?
    ensures ScanParticipant(children).value.key == LastKey(children)
  {
    if children != [] {
      ScanParticipantSnoc(children);
      ScanKey(children[..|children| - 1]);
      StepKeyName(ScanParticipant(children[..|children| - 1]).value, children[|children| - 1]);
    }
  }

  lemma {:induction false} LastKeyMeaning(children: seq<ParticipantChild>)
    ensures (forall i :: 0 <= i < |children| ==> !children[i].KeyChild?) ==> LastKey(children).None?
    ensures (exists i :: 0 <= i < |children| && children[i].KeyChild?) ==>
              exists i :: 0 <= i < |children| && children[i] == KeyChild(LastKey(children))
                && forall j :: i < j < |children| ==> !children[j].KeyChild?
  {
    if children != [] {
      var init := children[..|children| - 1];
      LastKeyMeaning(init);
      assert forall i :: 0 <= i < |init| ==> init[i] == children[i];
      var n := |children| - 1;
      if children[n].KeyChild? {
        assert children[n] == KeyChild(LastKey(children));
      } else if exists i :: 0 <= i < |init| && init[i].KeyChild? {
        var i :| 0 <= i < |init| && init[i] == KeyChild(LastKey(init))
                 && forall j :: i < j < |init| ==> !init[j].KeyChild?;
        assert children[i] == init[i];
      }
    }
  }

  /** A walk that completes met no `key` child without a `value`. */
  lemma {:induction false} KeyChildrenHaveValues(children: seq<ParticipantChild>)
    requires ScanParticipant(children).Success?
    ensures forall i :: 0 <= i < |children| && children[i].KeyChild? ==> children[i].value.Some?
  {
    if children != [] {
      ScanParticipantSnoc(children);
      var init := children[..|children| - 1];
      KeyChildrenHaveValues(init);
      assert forall i :: 0 <= i < |init| ==> init[i] == children[i];
    }
  }

  /** `child.find("value").text` on a `key` child without a `value` raises AttributeError, ending the walk. */
  lemma KeyWithoutValueRaises(children: seq<ParticipantChild>)
    ensures (exists i :: 0 <= i < |children| && children[i] == KeyChild(None)) ==> ScanParticipant(children).Failure?
  {
    if ScanParticipant(children).Success? {
      KeyChildrenHaveValues(children);
    }
  }

  /** The last step of a walk that succeeded, from the walk over all children before it. */
  lemma ScanParticipantSnoc(children: seq<ParticipantChild>)
    requires children != [] && ScanParticipant(children).Success?
    ensures ScanParticipant(children[..|children| - 1]).Success?
    ensures ScanParticipant(children) == ParticipantStep(ScanParticipant(children[..|children| - 1]).value, children[|children| - 1])
  {
  }

  /** Only a `key` child sets the key, and only a name-setting child the name. */
  lemma StepKeyName(st: ParticipantScan, c: ParticipantChild)
    requires ParticipantStep(st, c).Success?
    ensures ParticipantStep(st, c).value.key == if c.KeyChild? then c.value else st.key
    ensures ParticipantStep(st, c).value.name == if SetsName(c) then c.name else st.name
  {
    if c.PropertyChild? {
      PropertiesKeepName(st, c.elements);
    }
  }

  /** The children that set the participant name: a present `name` under `participant_name` or `property`. */
  predicate SetsName(c: ParticipantChild)
  {
    (c.NameChild? && c.name.Some?) || (c.PropertyChild? && c.name.Some?)
  }

  /** The name is the one the last name-setting child carries; with none it stays None. */
  lemma NameIsLastNameChild(children: seq<ParticipantChild>)
    requires ScanParticipant(children).Success?
    ensures var st := ScanParticipant(children).value;
      (st.name.None? <==> forall i :: 0 <= i < |children| ==> !SetsName(children[i]))
      && (st.name.Some? ==> exists i :: 0 <= i < |children| && SetsName(children[i]) && children[i].name == st.name
                              && forall j :: i < j < |children| ==> !SetsName(children[j]))
  {
    ScanName(children);
    LastNameMeaning(children);
  }

  /** The name the last name-setting child carries, None when there is none. */
  function LastName(children: seq<ParticipantChild>): Option<string>
  {
    if children == [] then None
    else if SetsName(children[|children| - 1]) then children[|children| - 1].name
    else LastName(children[..|children| - 1])
  }

  lemma {:induction false} ScanName(children: seq<ParticipantChild>)
    requires ScanParticipant(children).Success?
    ensures ScanParticipant(children).value.name == LastName(children)
  {
    if children != [] {
      ScanParticipantSnoc(children);
      ScanName(children[..|children| - 1]);
      StepKeyName(ScanParticipant(children[..|children| - 1]).value, children[|children| - 1]);
    }
  }

  lemma {:induction false} LastNameMeaning(children: seq<ParticipantChild>)
    ensures LastName(children).None? <==> forall i :: 0 <= i < |children| ==> !SetsName(children[i])
    ensures LastName(children).Some? ==> exists i :: 0 <= i < |children| && SetsName(children[i]) && children[i].name == LastName(children)
                                          && forall j :: i < j < |children| ==> !SetsName(children[j])
  {
    if children != [] {
      var init := children[..|children| - 1];
      LastNameMeaning(init);
      assert forall i :: 0 <= i < |init| ==> init[i] == children[i];
      var n := |children| - 1;
      if SetsName(children[n]) {
        assert children[n].name == LastName(children);
      } else if LastName(init).Some? {
        var i :| 0 <= i < |init| && SetsName(init[i]) && init[i].name == LastName(init)
                 && forall j :: i < j < |init| ==> !SetsName(init[j]);
        assert children[i] == init[i];
      }
    }
  }

  lemma {:induction false} PropertiesKeepName(st: ParticipantScan, elements: seq<PropertyElement>)
    ensures PropertiesScan(st, elements).name == st.name
    ensures PropertiesScan(st, elements).key == st.key
    ensures PropertiesScan(st, elements).unicast == st.unicast
  {
    if elements != [] {
      PropertiesKeepName(st, elements[..|elements| - 1]);
    }
  }

  /** A property element that carries both its name and its value. */
  predicate Complete(e: PropertyElement)
  {
    e.name.Some? && e.value.Some?
  }

  /**
   * When every element is complete, the hostname is the value of the last
   * element named `dds.sys_info.hostname`, or what it was before when there is none.
   */
  lemma {:induction false} HostnameIsLastHostnameProperty(st: ParticipantScan, elements: seq<PropertyElement>)
    requires forall i :: 0 <= i < |elements| ==> Complete(elements[i])
    ensures var h := PropertiesScan(st, elements).hostname;
      ((forall i :: 0 <= i < |elements| ==> elements[i].name != Some(HostnameProperty)) ==> h == st.hostname)
      && (forall i :: 0 <= i < |elements| && elements[i].name == Some(HostnameProperty)
            && (forall j :: i < j < |elements| ==> elements[j].name != Some(HostnameProperty))
            ==> h == elements[i].value)
  {
    if elements != [] {
      var init := elements[..|elements| - 1];
      HostnameIsLastHostnameProperty(st, init);
      var h := PropertiesScan(st, elements).hostname;
      forall i | 0 <= i < |elements| && elements[i].name == Some(HostnameProperty)
                 && (forall j :: i < j < |elements| ==> elements[j].name != Some(HostnameProperty))
        ensures h == elements[i].value
      {
        if i < |init| {
          assert init[i] == elements[i];
        }
      }
    }
  }

  /**
   * The property locals outlive their element: a hostname element without a
   * `value` takes the value of the element before it.
   */
  lemma HostnameTakesEarlierValue(st: ParticipantScan, v: string)
    ensures PropertiesScan(st, [PropertyElement(Some("dds.sys_info.process_id"), Some(v)),
                                PropertyElement(Some(HostnameProperty), None)]).hostname == Some(v)
  {
    var es := [PropertyElement(Some("dds.sys_info.process_id"), Some(v)), PropertyElement(Some(HostnameProperty), None)];
    assert es[..1] == [es[0]] && [es[0]][..0] == [];
    assert "dds.sys_info.process_id" != HostnameProperty by {
      assert "dds.sys_info.process_id"[13] != HostnameProperty[13];
    }
  }

  /** Whether a child is a `default_unicast_locators` child with a UDPv4 element. */
  predicate HasUdp(c: ParticipantChild)
  {
    c.UnicastLocatorsChild? && exists k :: 0 <= k < |c.locators| && c.locators[k].kind == Some(UdpV4Kind)
  }

  /** Without a UDPv4 locator `ip_str` is never bound: decoding fails with UnboundLocalError. */
  lemma {:induction false} NoUdpNoAddress(children: seq<ParticipantChild>)
    requires forall i :: 0 <= i < |children| ==> !HasUdp(children[i])
    ensures ScanParticipant(children).Failure? || ScanParticipant(children).value.unicast.ip.None?
    ensures DecodeParticipant(children).Failure?
  {
    if children != [] {
      var init := children[..|children| - 1];
      NoUdpNoAddress(init);
      var last := children[|children| - 1];
      if ScanParticipant(init).Success? {
        if last.UnicastLocatorsChild? {
          UnicastWithoutUdpKeepsIp(last.locators, ScanParticipant(init).value.unicast);
        } else if last.PropertyChild? {
          PropertiesKeepName(ScanParticipant(init).value, last.elements);
        }
      }
    }
  }

  /** The children after the last `default_unicast_locators` child leave the address alone. */
  lemma {:induction false} LaterChildrenKeepAddress(children: seq<ParticipantChild>, k: nat)
    requires k <= |children|
    requires ScanParticipant(children).Success?
    requires forall i :: k <= i < |children| ==> !children[i].UnicastLocatorsChild?
    ensures ScanParticipant(children[..k]).Success?
    ensures ScanParticipant(children).value.unicast == ScanParticipant(children[..k]).value.unicast
  {
    if k == |children| {
      assert children[..k] == children;
    } else {
      var init := children[..|children| - 1];
      ScanParticipantSnoc(children);
      assert init[..k] == children[..k];
      var c := children[|children| - 1];
      if c.PropertyChild? {
        PropertiesKeepName(ScanParticipant(init).value, c.elements);
      }
      LaterChildrenKeepAddress(init, k);
    }
  }

  /**
   * The device address of a participant whose last `default_unicast_locators`
   * child has a UDPv4 element whose own address decodes: its dotted rendering.
   */
  lemma ParticipantAddress(children: seq<ParticipantChild>, k: nat, j: nat, ip: string)
    requires UdpAt(children, k, j, ip)
    requires forall i :: k < i < |children| ==> !children[i].UnicastLocatorsChild?
    requires ScanParticipant(children).Success?
    ensures DecodeParticipant(children).Success? && DecodeParticipant(children).value.ip == ip
  {
    LaterChildrenKeepAddress(children, k + 1);
    UdpChildBinds(children, k, j, ip);
    DecodedAddress(children, ip);
  }

  /** Child k is a unicast locator list whose first UDPv4 element j has an address decoding to ip. */
  predicate UdpAt(children: seq<ParticipantChild>, k: nat, j: nat, ip: string)
  {
    k < |children| && children[k].UnicastLocatorsChild?
    && FirstUdp(children[k].locators) == Some(j)
    && children[k].locators[j].address.Some?
    && AddressIp(children[k].locators[j].address.value) == Success(ip)
  }

  /** The walk up to and including the unicast child k binds the address its first UDPv4 element decodes to. */
  lemma UdpChildBinds(children: seq<ParticipantChild>, k: nat, j: nat, ip: string)
    requires UdpAt(children, k, j, ip)
    requires ScanParticipant(children[..k + 1]).Success?
    ensures ScanParticipant(children[..k + 1]).value.unicast.ip == Some(ip)
  {
    ScanPrefixStep(children, k);
    var locs := children[k].locators;
    assert children[k] == UnicastLocatorsChild(locs);
    UnicastChildAddress(ScanParticipant(children[..k]).value, locs, j, ip);
  }

  lemma DecodedAddress(children: seq<ParticipantChild>, ip: string)
    requires ScanParticipant(children).Success? && ScanParticipant(children).value.unicast.ip == Some(ip)
    ensures DecodeParticipant(children).Success? && DecodeParticipant(children).value.ip == ip
  {
  }

  /** The walk up to child k, from the walk before it. */
  lemma ScanPrefixStep(children: seq<ParticipantChild>, k: nat)
    requires k < |children| && ScanParticipant(children[..k + 1]).Success?
    ensures ScanParticipant(children[..k]).Success?
    ensures ScanParticipant(children[..k + 1]) == ParticipantStep(ScanParticipant(children[..k]).value, children[k])
  {
    assert children[..k + 1][..k] == children[..k];
  }

  /** A locator list whose first UDPv4 element has an address that decodes binds `ip_str` to it. */
  lemma UnicastChildAddress(st: ParticipantScan, locs: seq<LocatorElement>, j: nat, ip: string)
    requires FirstUdp(locs) == Some(j)
    requires locs[j].address.Some?
    requires AddressIp(locs[j].address.value) == Success(ip)
    ensures ParticipantStep(st, UnicastLocatorsChild(locs)).Success?
    ensures ParticipantStep(st, UnicastLocatorsChild(locs)).value.unicast.ip == Some(ip)
  {
    assert locs[..j + 1][j] == locs[j];
    assert LatestTokens(locs[..j + 1], st.unicast.tokens) == Some(AddressTokens(locs[j].address.value));
  }

  /**
   * When every element is complete, the file path is the value of the last
   * element named `dds.sys_info.executable_filepath`, or what it was before
   * when there is none.
   */
  lemma {:induction false} FilepathIsLastFilepathProperty(st: ParticipantScan, elements: seq<PropertyElement>)
    requires forall i :: 0 <= i < |elements| ==> Complete(elements[i])
    ensures var p := PropertiesScan(st, elements).filepath;
      ((forall i :: 0 <= i < |elements| ==> elements[i].name != Some(FilepathProperty)) ==> p == st.filepath)
      && (forall i :: 0 <= i < |elements| && elements[i].name == Some(FilepathProperty)
            && (forall j :: i < j < |elements| ==> elements[j].name != Some(FilepathProperty))
            ==> p == elements[i].value)
  {
    if elements != [] {
      var init := elements[..|elements| - 1];
      FilepathIsLastFilepathProperty(st, init);
      var p := PropertiesScan(st, elements).filepath;
      forall i | 0 <= i < |elements| && elements[i].name == Some(FilepathProperty)
                 && (forall j :: i < j < |elements| ==> elements[j].name != Some(FilepathProperty))
        ensures p == elements[i].value
      {
        if i < |init| {
          assert init[i] == elements[i];
        }
      }
    }
  }

  // ------------------------------------------------------------ endpoint facts

  /** A child whose unguarded lookups succeed: `reliability` has its `kind`, `deadline` its `period/sec` and `period/nanosec`. */
  predicate Readable(c: EndpointChild)
  {
    (c.ReliabilityChild? ==> c.kind.Some?) && (c.DeadlineChild? ==> c.sec.Some? && c.nanosec.Some?)
  }

  /** A walk that completes read every child it met. */
  lemma {:induction false} EndpointChildrenReadable(children: seq<EndpointChild>)
    requires DecodeEndpoint(children).Success?
    ensures forall i :: 0 <= i < |children| ==> Readable(children[i])
  {
    if children != [] {
      var init := children[..|children| - 1];
      EndpointChildrenReadable(init);
      assert forall i :: 0 <= i < |init| ==> init[i] == children[i];
    }
  }

  /** A `reliability` child without `kind`, or a `deadline` child without its period, raises AttributeError. */
  lemma UnreadableChildRaises(children: seq<EndpointChild>)
    ensures (exists i :: 0 <= i < |children| && !Readable(children[i])) ==> DecodeEndpoint(children).Failure?
  {
    if DecodeEndpoint(children).Success? {
      EndpointChildrenReadable(children);
    }
  }

  /** The value the last child that sets a field gives it (`sets` says which value, if any), or `initial` when none does. */
  function LastSet<T>(children: seq<EndpointChild>, sets: EndpointChild -> Option<T>, initial: T): T
  {
    if children == [] then initial
    else match sets(children[|children| - 1])
      case Some(v) => v
      case None => LastSet(children[..|children| - 1], sets, initial)
  }

  /** LastSet is the value of the last child that sets the field, and the initial value only when no child does. */
  lemma {:induction false} LastSetMeaning<T>(children: seq<EndpointChild>, sets: EndpointChild -> Option<T>, initial: T)
    ensures (forall i :: 0 <= i < |children| ==> sets(children[i]).None?) ==> LastSet(children, sets, initial) == initial
    ensures (exists i :: 0 <= i < |children| && sets(children[i]).Some?) ==>
              exists i :: 0 <= i < |children| && sets(children[i]) == Some(LastSet(children, sets, initial))
                && forall j :: i < j < |children| ==> sets(children[j]).None?
  {
    if children != [] {
      var init := children[..|children| - 1];
      LastSetMeaning(init, sets, initial);
      assert forall i :: 0 <= i < |init| ==> init[i] == children[i];
      var n := |children| - 1;
      if sets(children[n]).None? && exists i :: 0 <= i < |init| && sets(init[i]).Some? {
        var i :| 0 <= i < |init| && sets(init[i]) == Some(LastSet(init, sets, initial))
                 && forall j :: i < j < |init| ==> sets(init[j]).None?;
        assert children[i] == init[i];
      }
    }
  }

  function SetsTopic(c: EndpointChild): Option<Option<string>>
  {
    if c.TopicNameChild? then Some(Some(c.text)) else None
  }

  function SetsType(c: EndpointChild): Option<Option<string>>
  {
    if c.TypeNameChild? then Some(Some(c.text)) else None
  }

  function SetsMaxSize(c: EndpointChild): Option<string>
  {
    if c.MaxSizeChild? then Some(c.text) else None
  }

  function SetsReliability(c: EndpointChild): Option<Option<string>>
  {
    if c.ReliabilityChild? then Some(c.kind) else None
  }

  /** A `deadline` child sets the deadline its period decodes to. */
  function SetsDeadline(c: EndpointChild): Option<Deadline>
  {
    if c.DeadlineChild? && c.sec.Some? && c.nanosec.Some? && DecodeDeadline(c.sec.value, c.nanosec.value).Success?
    then Some(DecodeDeadline(c.sec.value, c.nanosec.value).value)
    else None
  }

  /** Only a `content_filter_property` child with a `filter_expression` sets the filter. */
  function SetsFilter(c: EndpointChild): Option<Option<string>>
  {
    if c.ContentFilterChild? && c.expression.Some? then Some(c.expression) else None
  }

  /**
   * Only a `multicast_locators` child with an addressed element sets the
   * multicast address: to the decoding of its last addressed element
   * (LatestDecodedIsLastAddressed, LastAddressedMeaning).
   */
  function SetsMulticast(c: EndpointChild): Option<Option<string>>
  {
    if c.MulticastLocatorsChild? then
      match MulticastScan(c.locators, None)
      case Success(Some(ip)) => Some(Some(ip))
      case _ => None
    else None
  }

  /**
   * Every field of a decoded endpoint comes from the last child that sets
   * it: topic, type name, maximum size, reliability kind and deadline from
   * the last child of their tag, the filter from the last
   * `content_filter_property` with an expression, the multicast address from
   * the last addressed element of all `multicast_locators` children. A
   * field no child sets keeps its initial value.
   */
  lemma {:induction false} EndpointFieldsAreLast(children: seq<EndpointChild>)
    requires DecodeEndpoint(children).Success?
    ensures var f := DecodeEndpoint(children).value;
      f.topic == LastSet(children, SetsTopic, None)
      && f.typeName == LastSet(children, SetsType, None)
      && f.maxSize == LastSet(children, SetsMaxSize, "")
      && f.reliable == LastSet(children, SetsReliability, None)
      && f.deadline == LastSet(children, SetsDeadline, Unset)
      && f.filter == LastSet(children, SetsFilter, None)
      && f.multicast == LastSet(children, SetsMulticast, None)
  {
    if children != [] {
      var init := children[..|children| - 1];
      EndpointFieldsAreLast(init);
      EndpointStepSets(DecodeEndpoint(init).value, children[|children| - 1]);
    }
  }

  /** One child changes exactly the field it sets. */
  lemma EndpointStepSets(f: EndpointFields, c: EndpointChild)
    requires EndpointStep(f, c).Success?
    ensures var g := EndpointStep(f, c).value;
      g.topic == (if SetsTopic(c).Some? then SetsTopic(c).value else f.topic)
      && g.typeName == (if SetsType(c).Some? then SetsType(c).value else f.typeName)
      && g.maxSize == (if SetsMaxSize(c).Some? then SetsMaxSize(c).value else f.maxSize)
      && g.reliable == (if SetsReliability(c).Some? then SetsReliability(c).value else f.reliable)
      && g.deadline == (if SetsDeadline(c).Some? then SetsDeadline(c).value else f.deadline)
      && g.filter == (if SetsFilter(c).Some? then SetsFilter(c).value else f.filter)
      && g.multicast == (if SetsMulticast(c).Some? then SetsMulticast(c).value else f.multicast)
  {
  }

  /** A deadline written out as two decimal numerals decodes to exactly those numbers. */
  lemma DeadlineRoundTrip(sec: nat, nanosec: nat)
    ensures DecodeDeadline(DecimalString(sec), DecimalString(nanosec)) == Success(Finite(sec, nanosec))
  {
    NumeralRoundTrip(sec, 10);
    NumeralRoundTrip(nanosec, 10);
    assert !IsDigit(InfiniteSec[0], 10);
    assert !IsDigit(InfiniteNsec[0], 10);
  }

  /** A period of 5 s and 500000000 ns is a deadline of 5.5 s. */
  lemma DeadlineExample()
    ensures DecodeDeadline("5", "500000000") == Success(Finite(5, 500000000))
    ensures Finite(5, 500000000).Seconds() == 5.5
  {
    DeadlineRoundTrip(5, 500000000);
    FiveHundredMillion();
    assert DecimalString(5) == "5";
  }

  lemma FiveHundredMillion()
    ensures DecimalString(500000000) == "500000000"
  {
    assert Numeral(5, 10) == "5";
    TimesTen(5);
    TimesTen(50);
    TimesTen(500);
    TimesTen(5000);
    TimesTen(50000);
    TimesTen(500000);
    TimesTen(5000000);
    TimesTen(50000000);
  }

  /** Multiplying by ten appends a zero digit. */
  lemma TimesTen(n: nat)
    requires n > 0
    ensures Numeral(n * 10, 10) == Numeral(n, 10) + "0"
  {
  }

  /** The spreadsheet analyser's Participant object (lines that build Device and Participant). */
  function ParticipantOf(f: ParticipantFields): (p: Participant)
    ensures p.device.ip == f.ip && p.device.name == f.hostname
    ensures p.name == f.name && p.key == f.key && p.path == f.filepath
  {
    Participant(f.name, f.key, Device(f.hostname, f.ip), f.filepath)
  }

  /** The spreadsheet analyser's Endpoint object. */
  function EndpointOf(kind: Kind, f: EndpointFields, owner: Participant): Endpoint
  {
    Endpoint(kind, f.topic, f.typeName, owner, f.reliable, f.maxSize, f.deadline, f.filter, f.multicast)
  }
}
