/** Worked examples: one address moved into a shortcut block, and the
    endpoints forged for a local endpoint with and without a shortcut. */
module Scenarios {
  import opened Base
  import opened Text
  import opened Sequences
  import opened Ipv4
  import opened ForeignClusterConnections
  import opened EndpointSlices

  /** Four fields joined by dots. */
  lemma JoinFour(f0: string, f1: string, f2: string, f3: string)
    ensures Join([f0, f1, f2, f3], '.') == f0 + "." + f1 + "." + f2 + "." + f3
  {
    assert Join([f2, f3], '.') == f2 + "." + f3 by {
      assert [f2, f3][1..] == [f3];
    }
    assert Join([f1, f2, f3], '.') == f1 + "." + Join([f2, f3], '.') by {
      assert [f1, f2, f3][1..] == [f2, f3];
    }
    assert Join([f0, f1, f2, f3], '.') == f0 + "." + Join([f1, f2, f3], '.') by {
      assert [f0, f1, f2, f3][1..] == [f1, f2, f3];
    }
  }

  /** An address written as the dotted quad of the notations of its
      octets reads back as that address. */
  lemma DottedQuad(o: Octets, text: string, f0: string, f1: string, f2: string, f3: string)
    requires FormatOctet(o[0]) == f0 && FormatOctet(o[1]) == f1
    requires FormatOctet(o[2]) == f2 && FormatOctet(o[3]) == f3
    requires text == f0 + "." + f1 + "." + f2 + "." + f3
    ensures FormatIPv4(o) == text && ParseIPv4(text) == Some(o)
  {
    assert Fields(o) == [f0, f1, f2, f3];
    JoinFour(f0, f1, f2, f3);
    FormatParse(o);
  }

  lemma SmallOctets()
    ensures FormatOctet(0) == "0" && FormatOctet(1) == "1" && FormatOctet(5) == "5" && FormatOctet(9) == "9"
    ensures FormatOctet(10) == "10" && FormatOctet(244) == "244"
  {
    assert NatToDecimal(1) == "1" && NatToDecimal(2) == "2";
    assert NatToDecimal(24) == NatToDecimal(2) + "4";
  }

  /** The addresses of the examples read as they are written. */
  lemma ObservedAddress()
    ensures ParseIPv4("10.0.1.5") == Some([10, 0, 1, 5])
  {
    SmallOctets();
    DottedQuad([10, 0, 1, 5], "10.0.1.5", "10", "0", "1", "5");
  }

  lemma OutsideAddress()
    ensures ParseIPv4("10.0.9.9") == Some([10, 0, 9, 9])
  {
    SmallOctets();
    DottedQuad([10, 0, 9, 9], "10.0.9.9", "10", "0", "9", "9");
  }

  lemma RemappedAddress()
    ensures FormatIPv4([10, 244, 0, 5]) == "10.244.0.5"
  {
    SmallOctets();
    DottedQuad([10, 244, 0, 5], "10.244.0.5", "10", "244", "0", "5");
  }

  lemma ObservedNetwork()
    ensures ParseIPv4("10.0.1.0") == Some([10, 0, 1, 0])
  {
    SmallOctets();
    DottedQuad([10, 0, 1, 0], "10.0.1.0", "10", "0", "1", "0");
  }

  lemma ShortcutNetwork()
    ensures ParseIPv4("10.244.0.0") == Some([10, 244, 0, 0])
  {
    SmallOctets();
    DottedQuad([10, 244, 0, 0], "10.244.0.0", "10", "244", "0", "0");
  }

  lemma ObservedBlock()
    ensures ParseCIDR("10.0.1.0/24") == Some(Cidr([10, 0, 1, 0], 24))
  {
    ObservedNetwork();
    assert "10.0.1.0/24" == "10.0.1.0" + "/24";
    Block24("10.0.1.0/24", "10.0.1.0", [10, 0, 1, 0]);
  }

  lemma ShortcutBlock()
    ensures ParseCIDR("10.244.0.0/24") == Some(Cidr([10, 244, 0, 0], 24))
  {
    ShortcutNetwork();
    assert "10.244.0.0/24" == "10.244.0.0" + "/24";
    Block24("10.244.0.0/24", "10.244.0.0", [10, 244, 0, 0]);
  }

  /** The membership check and the remap of parsed inputs. */
  lemma OfParsed(address: string, cidr: string, ip: Octets, c: Cidr)
    requires ParseIPv4(address) == Some(ip) && ParseCIDR(cidr) == Some(c)
    ensures IpBelongsToCIDR(address, cidr) == Ok(Contains(c, ip))
    ensures RemapAddress(address, cidr) == Ok([FormatIPv4(Remapped(ip, c))])
  {
  }

  /** Splitting at the slash of "address/suffix" when the address has no
      slash. */
  lemma SplitAtSlash(text: string, suffix: string)
    requires '/' !in text && '/' !in suffix
    ensures Split(text + "/" + suffix, '/') == [text, suffix]
  {
    assert forall k :: 0 <= k < |[text, suffix]| ==> '/' !in [text, suffix][k];
    SplitJoin([text, suffix], '/');
    assert [text, suffix][1..] == [suffix];
  }

  lemma PrefixLen24()
    ensures ParsePrefixLen("24") == Some(24)
  {
    assert IsDigit('2') && IsDigit('4');
    assert AllDigits("24");
    assert "24"[..1] == "2" && "2"[..0] == "";
    assert DecimalValue("2") == 2;
    assert DecimalValue("24") == 24;
  }

  lemma Mask24(network: Octets)
    requires network[3] == 0
    ensures MaskAddress(network, 24) == network
  {
  }

  /** A "/24" block read from its notation. */
  lemma Block24(cidr: string, text: string, network: Octets)
    requires ParseIPv4(text) == Some(network) && network[3] == 0
    requires cidr == text + "/24"
    ensures ParseCIDR(cidr) == Some(Cidr(network, 24))
  {
    FormatHasNo(network, '/');
    ParseFormat(text);
    SplitAtSlash(text, "24");
    assert text + "/" + "24" == cidr;
    PrefixLen24();
    Mask24(network);
  }

  /** The pair of the examples: pods observed in 10.0.1.0/24, reachable
      over the shortcut in 10.244.0.0/24. */
  function ExamplePair(): CidrInfo
  {
    CidrInfo("10.0.1.0/24", "10.244.0.0/24")
  }

  /** The octets of the examples: 10.0.1.5 is in 10.0.1.0/24, 10.0.9.9 is
      not, and 10.0.1.5 moved into 10.244.0.0/24 is 10.244.0.5. */
  lemma ExampleMembership()
    ensures Contains(Cidr([10, 0, 1, 0], 24), [10, 0, 1, 5])
    ensures !Contains(Cidr([10, 0, 1, 0], 24), [10, 0, 9, 9])
  {
  }

  lemma ExampleRemap()
    ensures Remapped([10, 0, 1, 5], Cidr([10, 244, 0, 0], 24)) == [10, 244, 0, 5]
  {
  }

  // The proofs below work on variables bound to the texts of the examples,
  // which keeps the solver from unfolding the parsers on the literals.

  lemma ObservedIsRemappedAt(address: string, observed: string, shortcut: string)
    requires address == "10.0.1.5" && observed == "10.0.1.0/24" && shortcut == "10.244.0.0/24"
    ensures IpBelongsToCIDR(address, observed) == Ok(true)
    ensures RemapAddress(address, shortcut) == Ok(["10.244.0.5"])
  {
    ObservedAddress();
    ObservedBlock();
    ShortcutBlock();
    RemappedAddress();
    ExampleMembership();
    ExampleRemap();
    OfParsed(address, observed, [10, 0, 1, 5], Cidr([10, 0, 1, 0], 24));
    OfParsed(address, shortcut, [10, 0, 1, 5], Cidr([10, 244, 0, 0], 24));
  }

  lemma OutsideIsOutsideAt(address: string, observed: string)
    requires address == "10.0.9.9" && observed == "10.0.1.0/24"
    ensures IpBelongsToCIDR(address, observed) == Ok(false)
  {
    OutsideAddress();
    ObservedBlock();
    ExampleMembership();
    OfParsed(address, observed, [10, 0, 9, 9], Cidr([10, 0, 1, 0], 24));
  }

  lemma ExampleShortcutsAt(inside: string, outside: string, p: CidrInfo)
    requires inside == "10.0.1.5" && outside == "10.0.9.9" && p == ExamplePair()
    ensures ShortcutFor(inside, [p]) == Some("10.244.0.5")
    ensures ShortcutFor(outside, [p]) == None
  {
    ObservedIsRemappedAt(inside, p.podCIDR, p.shortcutPodCIDR);
    OutsideIsOutsideAt(outside, p.podCIDR);
    FirstSomeAt([p], q => Via(inside, q), 0);
    FirstSomeNone([p], q => Via(outside, q));
  }

  /** 10.0.1.5 lies in 10.0.1.0/24 and is remapped to 10.244.0.5. */
  lemma ObservedIsRemapped()
    ensures IpBelongsToCIDR("10.0.1.5", "10.0.1.0/24") == Ok(true)
    ensures RemapAddress("10.0.1.5", "10.244.0.0/24") == Ok(["10.244.0.5"])
  {
    ObservedIsRemappedAt("10.0.1.5", "10.0.1.0/24", "10.244.0.0/24");
  }

  /** 10.0.9.9 lies outside 10.0.1.0/24. */
  lemma OutsideIsOutside()
    ensures IpBelongsToCIDR("10.0.9.9", "10.0.1.0/24") == Ok(false)
  {
    OutsideIsOutsideAt("10.0.9.9", "10.0.1.0/24");
  }

  /** The shortcut address of 10.0.1.5 is 10.244.0.5; 10.0.9.9 has none. */
  lemma ExampleShortcuts()
    ensures ShortcutFor("10.0.1.5", [ExamplePair()]) == Some("10.244.0.5")
    ensures ShortcutFor("10.0.9.9", [ExamplePair()]) == None
  {
    ExampleShortcutsAt("10.0.1.5", "10.0.9.9", ExamplePair());
  }

  /** Two addresses of which only the first has a shortcut give one
      endpoint carrying that shortcut. */
  lemma OneOfTwo(local: LocalEndpoint, resolve: string -> Option<string>, env: Env, shortcut: string)
    requires |local.addresses| == 2
    requires resolve(local.addresses[0]) == Some(shortcut) && resolve(local.addresses[1]) == None
    ensures var out := ForgeLocal(local, resolve, env);
      |out| == 1 && out[0].addresses == [shortcut]
  {
    ShortcutsStep(local.addresses, 0, resolve);
    ShortcutsStep(local.addresses, 1, resolve);
    assert local.addresses[..2] == local.addresses;
    ForgeLocalShape(local, resolve, env);
  }

  /** One address without a shortcut gives one endpoint carrying the
      translated addresses. */
  lemma NoneOfOne(local: LocalEndpoint, resolve: string -> Option<string>, env: Env)
    requires |local.addresses| == 1 && resolve(local.addresses[0]) == None
    ensures var out := ForgeLocal(local, resolve, env);
      |out| == 1 && out[0].addresses == env.translator(local.addresses)
  {
    ShortcutsStep(local.addresses, 0, resolve);
    assert local.addresses[..1] == local.addresses;
    ForgeLocalShape(local, resolve, env);
  }

  /** A reflected endpoint with addresses 10.0.1.5 and 10.0.9.9 is forged
      into one endpoint carrying only 10.244.0.5: the address without a
      shortcut is dropped and no endpoint with translated addresses is
      forged. */
  lemma MixedEndpointExample(local: LocalEndpoint, env: Env)
    requires local.addresses == ["10.0.1.5", "10.0.9.9"]
    ensures var out := ForgeLocal(local, Resolver([ExamplePair()]), env);
      |out| == 1 && out[0].addresses == ["10.244.0.5"]
  {
    ExampleShortcuts();
    OneOfTwo(local, Resolver([ExamplePair()]), env, "10.244.0.5");
  }

  /** A reflected endpoint whose only address has no shortcut is forged
      into one endpoint carrying the translated addresses. */
  lemma DefaultEndpointExample(local: LocalEndpoint, env: Env)
    requires local.addresses == ["10.0.9.9"]
    ensures var out := ForgeLocal(local, Resolver([ExamplePair()]), env);
      |out| == 1 && out[0].addresses == env.translator(["10.0.9.9"])
  {
    ExampleShortcuts();
    NoneOfOne(local, Resolver([ExamplePair()]), env);
  }
}
