/**
 * Locator decoding. A locator element of the discovery snapshot carries a
 * `kind` code and an `address` holding the sixteen address bytes as
 * comma-separated hexadecimal tokens; an IPv4 address sits in the last four.
 * Kind "1" is LOCATOR_KIND_UDPv4 (section 9.3.2 of the OMG DDSI-RTPS
 * specification).
 */
module Locator {
  import opened Wrappers
  import opened Text

  /** One `element` of a locator list: the text of its `kind` and `address` children, None when absent. */
  datatype LocatorElement = LocatorElement(kind: Option<string>, address: Option<string>)

  const UdpV4Kind: string := "1"

  /** `[int(t, 16) for t in tokens]`, failing as int() does on the first token that is not hexadecimal. */
  function DecodeTokens(tokens: seq<string>): (r: Result<seq<nat>, Fault>)
    ensures r.Failure? ==> r.error == BadHexToken
  {
    if tokens == [] then Success([])
    else
      match DecodeTokens(tokens[..|tokens| - 1])
      case Failure(e) => Failure(e)
      case Success(vs) =>
        match ParseHex(tokens[|tokens| - 1])
        case None => Failure(BadHexToken)
        case Some(v) => Success(vs + [v])
  }

  /** The decoding succeeds exactly when every token is hexadecimal, and then yields each token's value. */
  lemma {:induction false} DecodeTokensMeaning(tokens: seq<string>)
    ensures DecodeTokens(tokens).Success? <==> forall i :: 0 <= i < |tokens| ==> ParseHex(tokens[i]).Some?
    ensures DecodeTokens(tokens).Success? ==> |DecodeTokens(tokens).value| == |tokens|
    ensures DecodeTokens(tokens).Success?
            ==> forall i :: 0 <= i < |tokens| ==> ParseHex(tokens[i]) == Some(DecodeTokens(tokens).value[i])
  {
    if tokens != [] {
      var init := tokens[..|tokens| - 1];
      DecodeTokensMeaning(init);
      assert forall i :: 0 <= i < |init| ==> init[i] == tokens[i];
    }
  }

  /** `".".join(map(str, values))`. */
  function Dotted(values: seq<nat>): string
  {
    Join(seq(|values|, i requires 0 <= i < |values| => DecimalString(values[i])), '.')
  }

  /** The last four comma-separated tokens of an address text (`address.split(",")[-4:]`). */
  function AddressTokens(address: string): seq<string>
  {
    LastFour(Split(address, ','))
  }

  /** The dotted-decimal rendering of the last four tokens of an address. */
  function AddressIp(address: string): Result<string, Fault>
  {
    match DecodeTokens(AddressTokens(address))
    case Failure(e) => Failure(e)
    case Success(vs) => Success(Dotted(vs))
  }

  // ------------------------------------------------------------ unicast scan

  /** The index of the first element whose kind is UDPv4. */
  function FirstUdp(locs: seq<LocatorElement>): (r: Option<nat>)
    ensures r.Some? ==> r.value < |locs| && locs[r.value].kind == Some(UdpV4Kind)
  {
    if locs == [] then None
    else match FirstUdp(locs[..|locs| - 1])
      case Some(j) => Some(j)
      case None => if locs[|locs| - 1].kind == Some(UdpV4Kind) then Some(|locs| - 1) else None
  }

  /** FirstUdp finds a UDPv4 element with none before it, and finds none only when there is none. */
  lemma {:induction false} FirstUdpMeaning(locs: seq<LocatorElement>)
    ensures FirstUdp(locs).Some? ==> forall k :: 0 <= k < FirstUdp(locs).value ==> locs[k].kind != Some(UdpV4Kind)
    ensures FirstUdp(locs).None? ==> forall k :: 0 <= k < |locs| ==> locs[k].kind != Some(UdpV4Kind)
  {
    if locs != [] {
      var init := locs[..|locs| - 1];
      FirstUdpMeaning(init);
      assert forall k :: 0 <= k < |init| ==> init[k] == locs[k];
    }
  }

  /** The tokens of the last element of locs that has an address; `carried` when none has. */
  function LatestTokens(locs: seq<LocatorElement>, carried: Option<seq<string>>): Option<seq<string>>
  {
    if locs == [] then carried
    else
      var last := locs[|locs| - 1];
      if last.address.Some? then Some(AddressTokens(last.address.value))
      else LatestTokens(locs[..|locs| - 1], carried)
  }

  /** The locals the unicast scan of parse_participant leaves behind: `last_4_ip_list` and `ip_str`. */
  datatype UnicastState = UnicastState(tokens: Option<seq<string>>, ip: Option<string>)

  /**
   * What one `default_unicast_locators` child does to those locals: the first
   * UDPv4 element decides the address, from the tokens of the latest element
   * at or before it that carried an address; later elements are not read.
   */
  function UnicastScan(locs: seq<LocatorElement>, st: UnicastState): Result<UnicastState, Fault>
  {
    match FirstUdp(locs)
    case None => Success(UnicastState(LatestTokens(locs, st.tokens), st.ip))
    case Some(j) => UdpAddress(LatestTokens(locs[..j + 1], st.tokens))
  }

  /** What a UDPv4 element makes of the tokens in hand: unbound when none, else their dotted address. */
  function UdpAddress(tokens: Option<seq<string>>): Result<UnicastState, Fault>
  {
    match tokens
    case None => Failure(AddressUnbound)
    case Some(toks) =>
      match DecodeTokens(toks)
      case Failure(e) => Failure(e)
      case Success(vs) => Success(UnicastState(Some(toks), Some(Dotted(vs))))
  }

  /**
   * A UDPv4 element raises UnboundLocalError when no element up to it had an
   * address, raises ValueError iff one of the tokens is not hexadecimal, and
   * otherwise binds `ip_str` to the dotted decimal of the tokens' values.
   */
  lemma UdpAddressMeaning(tokens: Option<seq<string>>)
    ensures tokens.None? ==> UdpAddress(tokens) == Failure(AddressUnbound)
    ensures tokens.Some? ==> (UdpAddress(tokens).Failure? <==> exists i :: 0 <= i < |tokens.value| && ParseHex(tokens.value[i]).None?)
    ensures tokens.Some? && UdpAddress(tokens).Failure? ==> UdpAddress(tokens).error == BadHexToken
    ensures UdpAddress(tokens).Success? ==> tokens.Some? && UdpAddress(tokens).value.tokens == tokens
    ensures UdpAddress(tokens).Success? ==>
              exists vs: seq<nat> :: |vs| == |tokens.value| && UdpAddress(tokens).value.ip == Some(Dotted(vs))
                && forall i :: 0 <= i < |vs| ==> ParseHex(tokens.value[i]) == Some(vs[i])
  {
    if tokens.Some? {
      DecodeTokensMeaning(tokens.value);
      if UdpAddress(tokens).Success? {
        var vs := DecodeTokens(tokens.value).value;
        assert UdpAddress(tokens).value.ip == Some(Dotted(vs));
      }
    }
  }

  /** The body of the loop's UDPv4 branch. */
  method DecideUdp(tokens: Option<seq<string>>) returns (r: Result<UnicastState, Fault>)
    ensures r == UdpAddress(tokens)
    ensures tokens.None? ==> r == Failure(AddressUnbound)
    ensures tokens.Some? ==> (r.Failure? <==> exists i :: 0 <= i < |tokens.value| && ParseHex(tokens.value[i]).None?)
    ensures tokens.Some? && r.Failure? ==> r.error == BadHexToken
    ensures r.Success? ==>
              exists vs: seq<nat> :: |vs| == |tokens.value| && r.value.ip == Some(Dotted(vs))
                && forall i :: 0 <= i < |vs| ==> ParseHex(tokens.value[i]) == Some(vs[i])
  {
    UdpAddressMeaning(tokens);
    if tokens.None? {
      return Failure(AddressUnbound);
    }
    var values := DecodeTokens(tokens.value);
    if values.Failure? {
      return Failure(values.error);
    }
    return Success(UnicastState(tokens, Some(Dotted(values.value))));
  }

  /** The loop of parse_participant over a `default_unicast_locators` child, with its `break`. */
  method ScanUnicast(locs: seq<LocatorElement>, st: UnicastState) returns (r: Result<UnicastState, Fault>)
    ensures r == UnicastScan(locs, st)
  {
    var i, tokens := ScanToUdp(locs, st.tokens);
    if i < |locs| {
      r := DecideUdp(tokens);
    } else {
      r := Success(UnicastState(tokens, st.ip));
    }
  }

  /** The loop up to its `break`: the position of the first UDPv4 element and the tokens in hand there. */
  method ScanToUdp(locs: seq<LocatorElement>, carried: Option<seq<string>>) returns (i: nat, tokens: Option<seq<string>>)
    ensures i <= |locs|
    ensures i < |locs| ==> FirstUdp(locs) == Some(i) && tokens == LatestTokens(locs[..i + 1], carried)
    ensures i == |locs| ==> FirstUdp(locs).None? && tokens == LatestTokens(locs, carried)
  {
    tokens := carried;
    i := 0;
    while i < |locs|
      invariant 0 <= i <= |locs|
      invariant forall k :: 0 <= k < i ==> locs[k].kind != Some(UdpV4Kind)
      invariant tokens == LatestTokens(locs[..i], carried)
    {
      var element := locs[i];
      if element.address.Some? {
        tokens := Some(AddressTokens(element.address.value));
      }
      assert locs[..i + 1][..i] == locs[..i];
      if element.kind.Some? && element.kind.value == UdpV4Kind {
        FirstUdpAt(locs, i);
        return;
      }
      i := i + 1;
    }
    assert locs[..i] == locs;
  }

  lemma FirstUdpAt(locs: seq<LocatorElement>, i: nat)
    requires i < |locs| && locs[i].kind == Some(UdpV4Kind)
    requires forall k :: 0 <= k < i ==> locs[k].kind != Some(UdpV4Kind)
    ensures FirstUdp(locs) == Some(i)
  {
    FirstUdpMeaning(locs);
  }

  /** Elements after the first UDPv4 element never influence the result. */
  lemma {:induction false} UnicastIgnoresLaterElements(locs: seq<LocatorElement>, rest: seq<LocatorElement>, st: UnicastState)
    requires FirstUdp(locs).Some?
    ensures UnicastScan(locs + rest, st) == UnicastScan(locs, st)
  {
    var j := FirstUdp(locs).value;
    FirstUdpMeaning(locs);
    FirstUdpAt(locs + rest, j);
    assert (locs + rest)[..j + 1] == locs[..j + 1];
  }

  /** Without a UDPv4 element the scan leaves `ip_str` as it found it. */
  lemma UnicastWithoutUdpKeepsIp(locs: seq<LocatorElement>, st: UnicastState)
    requires forall k :: 0 <= k < |locs| ==> locs[k].kind != Some(UdpV4Kind)
    ensures UnicastScan(locs, st).Success? && UnicastScan(locs, st).value.ip == st.ip
  {
  }

  // ------------------------------------------------------------ multicast scan

  /** The index of the last element that carries an address. */
  function LastAddressed(locs: seq<LocatorElement>): (r: Option<nat>)
    ensures r.Some? ==> r.value < |locs| && locs[r.value].address.Some?
  {
    if locs == [] then None
    else if locs[|locs| - 1].address.Some? then Some(|locs| - 1)
    else LastAddressed(locs[..|locs| - 1])
  }

  /** LastAddressed finds an element with an address and none after it, and finds none only when there is none. */
  lemma {:induction false} LastAddressedMeaning(locs: seq<LocatorElement>)
    ensures LastAddressed(locs).Some? ==> forall k :: LastAddressed(locs).value < k < |locs| ==> locs[k].address.None?
    ensures LastAddressed(locs).None? ==> forall k :: 0 <= k < |locs| ==> locs[k].address.None?
  {
    if locs != [] {
      var init := locs[..|locs| - 1];
      LastAddressedMeaning(init);
      assert forall k :: 0 <= k < |init| ==> init[k] == locs[k];
    }
  }

  /** Every address in locs decodes (int(t, 16) succeeds on each of its last four tokens). */
  predicate AllAddressesDecode(locs: seq<LocatorElement>)
  {
    forall k :: 0 <= k < |locs| && locs[k].address.Some? ==> AddressIp(locs[k].address.value).Success?
  }

  /**
   * What one `multicast_locators` child does to `multicast_ip_str`: every
   * element with an address is decoded, without looking at its kind, and the
   * last one wins; a token that is not hexadecimal anywhere ends the run.
   */
  function MulticastScan(locs: seq<LocatorElement>, ip: Option<string>): Result<Option<string>, Fault>
  {
    if !AllAddressesDecode(locs) then Failure(BadHexToken)
    else match LastAddressed(locs)
      case None => Success(ip)
      case Some(j) => Success(Some(AddressIp(locs[j].address.value).value))
  }

  /** The loop of parse_endpoint over a `multicast_locators` child. */
  method ScanMulticast(locs: seq<LocatorElement>, ip: Option<string>) returns (r: Result<Option<string>, Fault>)
    ensures r == MulticastScan(locs, ip)
  {
    var current := ip;
    var i := 0;
    while i < |locs|
      invariant 0 <= i <= |locs|
      invariant AllAddressesDecode(locs[..i])
      invariant current == LatestDecoded(locs[..i], ip)
    {
      var element := locs[i];
      if element.address.Some? {
        var decoded := AddressIp(element.address.value);
        if decoded.Failure? {
          MulticastFailsAt(locs, i);
          return Failure(decoded.error);
        }
        current := Some(decoded.value);
      }
      DecodedStep(locs, i, ip);
      i := i + 1;
    }
    assert locs[..i] == locs;
    LatestDecodedIsLastAddressed(locs, ip);
    return Success(current);
  }

  /** One more element: the prefix property and the tracked decoding extend by it. */
  lemma DecodedStep(locs: seq<LocatorElement>, i: nat, ip: Option<string>)
    requires i < |locs| && AllAddressesDecode(locs[..i])
    requires locs[i].address.Some? ==> AddressIp(locs[i].address.value).Success?
    ensures AllAddressesDecode(locs[..i + 1])
    ensures LatestDecoded(locs[..i + 1], ip)
         == if locs[i].address.Some? then Some(AddressIp(locs[i].address.value).value) else LatestDecoded(locs[..i], ip)
  {
    assert locs[..i + 1] == locs[..i] + [locs[i]];
    DecodesExtend(locs[..i], locs[i]);
    LatestDecodedSnoc(locs[..i], locs[i], ip);
  }

  lemma LatestDecodedSnoc(locs: seq<LocatorElement>, e: LocatorElement, ip: Option<string>)
    ensures LatestDecoded(locs + [e], ip)
         == if e.address.Some? && AddressIp(e.address.value).Success? then Some(AddressIp(e.address.value).value) else LatestDecoded(locs, ip)
  {
    assert (locs + [e])[..|locs|] == locs;
  }

  lemma DecodesExtend(locs: seq<LocatorElement>, e: LocatorElement)
    requires AllAddressesDecode(locs)
    requires e.address.Some? ==> AddressIp(e.address.value).Success?
    ensures AllAddressesDecode(locs + [e])
  {
    var next := locs + [e];
    forall k | 0 <= k < |next| && next[k].address.Some? ensures AddressIp(next[k].address.value).Success? {
      if k < |locs| {
        assert next[k] == locs[k];
      }
    }
  }

  /** An address that does not decode anywhere makes the whole scan fail. */
  lemma MulticastFailsAt(locs: seq<LocatorElement>, i: nat)
    requires i < |locs| && locs[i].address.Some? && AddressIp(locs[i].address.value).Failure?
    ensures forall ip :: MulticastScan(locs, ip) == Failure(BadHexToken)
    ensures AddressIp(locs[i].address.value).error == BadHexToken
  {
    assert !AllAddressesDecode(locs);
  }

  /** The decoding of the last address in locs, as the loop tracks it element by element. */
  function LatestDecoded(locs: seq<LocatorElement>, ip: Option<string>): Option<string>
  {
    if locs == [] then ip
    else
      var last := locs[|locs| - 1];
      if last.address.Some? && AddressIp(last.address.value).Success?
      then Some(AddressIp(last.address.value).value)
      else LatestDecoded(locs[..|locs| - 1], ip)
  }

  lemma LatestDecodedIsLastAddressed(locs: seq<LocatorElement>, ip: Option<string>)
    requires AllAddressesDecode(locs)
    ensures MulticastScan(locs, ip) == Success(LatestDecoded(locs, ip))
  {
    LatestIsLast(locs, ip);
  }

  lemma {:induction false} LatestIsLast(locs: seq<LocatorElement>, ip: Option<string>)
    requires AllAddressesDecode(locs)
    ensures LatestDecoded(locs, ip)
         == match LastAddressed(locs) case None => ip case Some(j) => Some(AddressIp(locs[j].address.value).value)
  {
    if locs != [] {
      var init, last := locs[..|locs| - 1], locs[|locs| - 1];
      assert locs == init + [last];
      LatestDecodedSnoc(init, last, ip);
      if last.address.None? {
        assert AllAddressesDecode(init) by {
          forall k | 0 <= k < |init| && init[k].address.Some? ensures AddressIp(init[k].address.value).Success? {
            assert init[k] == locs[k];
          }
        }
        LatestIsLast(init, ip);
        assert LastAddressed(locs) == LastAddressed(init);
      }
    }
  }

  // ------------------------------------------------------------ round trips

  /** Decoding what Dotted printed gives the numbers back. */
  lemma DottedRoundTrip(values: seq<nat>)
    requires |values| >= 1
    ensures |Split(Dotted(values), '.')| == |values|
    ensures forall i :: 0 <= i < |values| ==> ParseDecimal(Split(Dotted(values), '.')[i]) == Some(values[i])
  {
    var parts := seq(|values|, i requires 0 <= i < |values| => DecimalString(values[i]));
    forall i | 0 <= i < |parts| ensures '.' !in parts[i] && ParseDecimal(parts[i]) == Some(values[i]) {
      NumeralRoundTrip(values[i], 10);
      NoSeparatorInDigits(parts[i], 10, '.');
    }
    SplitJoin(parts, '.');
  }

  /** The last four tokens of a joined address are the last four parts it was joined from. */
  lemma TokensOfJoin(prefix: seq<string>, tail: seq<string>)
    requires |tail| == 4
    requires forall i :: 0 <= i < |prefix| ==> ',' !in prefix[i]
    requires forall i :: 0 <= i < |tail| ==> ',' !in tail[i]
    ensures AddressTokens(Join(prefix + tail, ',')) == tail
  {
    var parts := prefix + tail;
    assert forall i :: 0 <= i < |parts| ==> ',' !in parts[i];
    SplitJoin(parts, ',');
    assert parts[|parts| - 4..] == tail;
  }

  /**
   * An address whose last four tokens are the hexadecimal numerals of four
   * numbers decodes to those numbers in dotted decimal, whatever precedes them.
   */
  lemma EncodedAddressDecodes(prefix: seq<string>, values: seq<nat>)
    requires |values| == 4
    requires forall i :: 0 <= i < |prefix| ==> ',' !in prefix[i]
    ensures AddressIp(Join(prefix + HexTokens(values), ',')) == Success(Dotted(values))
  {
    HexTokensNoComma(values);
    TokensOfJoin(prefix, HexTokens(values));
    HexTokensDecode(values);
  }

  lemma HexTokensNoComma(values: seq<nat>)
    ensures forall i :: 0 <= i < |HexTokens(values)| ==> ',' !in HexTokens(values)[i]
  {
    var hex := HexTokens(values);
    forall i | 0 <= i < |hex| ensures ',' !in hex[i] {
      NoSeparatorInDigits(hex[i], 16, ',');
    }
  }

  /** The hexadecimal numerals of the values, one token each. */
  function HexTokens(values: seq<nat>): (hex: seq<string>)
    ensures |hex| == |values| && forall i :: 0 <= i < |values| ==> AllDigits(hex[i], 16)
  {
    seq(|values|, i requires 0 <= i < |values| => Numeral(values[i], 16))
  }

  /** int(t, 16) of each numeral gives the values back. */
  lemma HexTokensDecode(values: seq<nat>)
    ensures DecodeTokens(HexTokens(values)) == Success(values)
  {
    var hex := HexTokens(values);
    forall i | 0 <= i < |values| ensures ParseHex(hex[i]) == Some(values[i]) {
      NumeralRoundTrip(values[i], 16);
    }
    var r := DecodeTokens(hex);
    DecodeTokensMeaning(hex);
    assert r.Success?;
    assert r.value == values;
  }
}
