/** A worked example of locator decoding. */
module LocatorExample {
  import opened Wrappers
  import opened Text
  import opened Locator

  /** A UDPv4 locator whose address ends in c0,a8,00,01 gives the device address 192.168.0.1. */
  lemma UdpV4Example(address: string)
    requires AddressTokens(address) == ["c0", "a8", "00", "01"]
    ensures UnicastScan([LocatorElement(Some("1"), Some(address))], UnicastState(None, None))
         == Success(UnicastState(Some(["c0", "a8", "00", "01"]), Some("192.168.0.1")))
  {
    ExampleTokensDecode();
    ExampleDotted();
  }

  lemma ExampleTokensDecode()
    ensures DecodeTokens(["c0", "a8", "00", "01"]) == Success([192, 168, 0, 1])
  {
    assert AllDigits("c0", 16) && DigitsValue("c0", 16) == 192;
    assert AllDigits("a8", 16) && DigitsValue("a8", 16) == 168;
    assert AllDigits("00", 16) && DigitsValue("00", 16) == 0;
    assert AllDigits("01", 16) && DigitsValue("01", 16) == 1;
    assert ParseHex("c0") == Some(192);
    assert ParseHex("a8") == Some(168);
    assert ParseHex("00") == Some(0);
    assert ParseHex("01") == Some(1);
    var r := DecodeTokens(["c0", "a8", "00", "01"]);
    DecodeTokensMeaning(["c0", "a8", "00", "01"]);
    assert r.Success?;
    assert r.value == [192, 168, 0, 1];
  }

  lemma ExampleDotted()
    ensures Dotted([192, 168, 0, 1]) == "192.168.0.1"
  {
    ExampleDecimals();
    assert seq(4, i requires 0 <= i < 4 => DecimalString([192, 168, 0, 1][i])) == ["192", "168", "0", "1"];
    ExampleJoin();
  }

  lemma ExampleDecimals()
    ensures DecimalString(192) == "192" && DecimalString(168) == "168"
    ensures DecimalString(0) == "0" && DecimalString(1) == "1"
  {
  }

  lemma ExampleJoin()
    ensures Join(["192", "168", "0", "1"], '.') == "192.168.0.1"
  {
    var parts := ["192", "168", "0", "1"];
    assert parts[..3] == ["192", "168", "0"];
    assert parts[..3][..2] == ["192", "168"];
    assert parts[..3][..2][..1] == ["192"];
    assert Join(["192", "168"], '.') == "192.168";
    assert Join(["192", "168", "0"], '.') == "192.168.0";
  }
}
