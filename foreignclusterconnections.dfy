/** The queries over ForeignClusterConnection records that feed the shortcut
    logic, the namespace naming rule of the virtual kubelet, and the two
    address helpers: membership of an address in a block and the remap into
    a block. */
module ForeignClusterConnections {
  import opened Base
  import opened Text
  import opened Ipv4

  // ---------------------------------------------------------------------------
  // Records
  // ---------------------------------------------------------------------------

  /** The networking status of one side of a connection. */
  datatype Networking = Networking(podCIDR: string, remappedPodCIDR: string)

  /** A ForeignClusterConnection: the two clusters it joins (its Kubernetes spec) and the
      networking status of each side. */
  datatype Connection = Connection(
    name: string,
    clusterA: string,
    clusterB: string,
    networkingA: Networking,
    networkingB: Networking)

  /** The pod CIDR used to recognise a shortcut address, and the CIDR the
      address is remapped into. */
  datatype CidrInfo = CidrInfo(podCIDR: string, shortcutPodCIDR: string)

  /** A `*ForeignClusterConnectionList`: `None` is the nil pointer. */
  type ConnectionList = Option<seq<Connection>>

  predicate NoConnections(list: ConnectionList)
  {
    list.None? || |list.value| == 0
  }

  /** Side A of `c` names the cluster and has a pod CIDR. */
  predicate AMatch(c: Connection, clusterName: string)
  {
    c.clusterA == clusterName && c.networkingA.podCIDR != ""
  }

  /** Side B of `c` names the cluster and has a pod CIDR. */
  predicate BMatch(c: Connection, clusterName: string)
  {
    c.clusterB == clusterName && c.networkingB.podCIDR != ""
  }

  function InfoA(c: Connection): CidrInfo
  {
    CidrInfo(c.networkingA.podCIDR, c.networkingA.remappedPodCIDR)
  }

  function InfoB(c: Connection): CidrInfo
  {
    CidrInfo(c.networkingB.podCIDR, c.networkingB.remappedPodCIDR)
  }

  // ---------------------------------------------------------------------------
  // GetForeignClusterConnectionsCIDRs
  // ---------------------------------------------------------------------------

  /** The non-empty side-A pod CIDRs of the records, in record order. */
  function APodCIDRs(items: seq<Connection>): seq<string>
  {
    if |items| == 0 then []
    else
      var last := items[|items| - 1];
      APodCIDRs(items[..|items| - 1]) + (if last.networkingA.podCIDR != "" then [last.networkingA.podCIDR] else [])
  }

  /** A CIDR is listed exactly when it is the non-empty side-A pod CIDR of
      some record. */
  lemma {:induction false} APodCIDRsMembers(items: seq<Connection>, x: string)
    ensures x in APodCIDRs(items) <==>
      x != "" && exists i :: 0 <= i < |items| && items[i].networkingA.podCIDR == x
  {
    if |items| > 0 {
      var init := items[..|items| - 1];
      APodCIDRsMembers(init, x);
      if x != "" && exists i :: 0 <= i < |items| && items[i].networkingA.podCIDR == x {
        var i :| 0 <= i < |items| && items[i].networkingA.podCIDR == x;
        if i < |items| - 1 {
          assert init[i] == items[i];
        }
      }
      if exists i :: 0 <= i < |init| && init[i].networkingA.podCIDR == x {
        var i :| 0 <= i < |init| && init[i].networkingA.podCIDR == x;
        assert items[i] == init[i];
      }
    }
  }

  /** The listing of two runs of records is the concatenation of their
      listings: record order is kept. */
  lemma {:induction false} APodCIDRsAppend(a: seq<Connection>, b: seq<Connection>)
    ensures APodCIDRs(a + b) == APodCIDRs(a) + APodCIDRs(b)
  {
    if |b| == 0 {
      assert a + b == a;
    } else {
      var init := b[..|b| - 1];
      assert (a + b)[..|a + b| - 1] == a + init;
      APodCIDRsAppend(a, init);
    }
  }

  /** `GetForeignClusterConnectionsCIDRs`: the side-A pod CIDRs of all
      records, or an error when there are no records or none has one. */
  method GetForeignClusterConnectionsCIDRs(list: ConnectionList) returns (r: Result<seq<string>>)
    ensures NoConnections(list) ==> r == Err(NoForeignClusterConnections)
    ensures !NoConnections(list) && APodCIDRs(list.value) == [] ==> r == Err(NoValidCidrs)
    ensures !NoConnections(list) && APodCIDRs(list.value) != [] ==> r == Ok(APodCIDRs(list.value))
  {
    if list.None? || |list.value| == 0 {
      return Err(NoForeignClusterConnections);
    }
    var items := list.value;
    var cidrs: seq<string> := [];
    for i := 0 to |items|
      invariant cidrs == APodCIDRs(items[..i])
    {
      assert items[..i + 1][..i] == items[..i];
      if items[i].networkingA.podCIDR != "" {
        cidrs := cidrs + [items[i].networkingA.podCIDR];
      }
    }
    assert items[..|items|] == items;
    if |cidrs| == 0 {
      return Err(NoValidCidrs);
    }
    return Ok(cidrs);
  }

  // ---------------------------------------------------------------------------
  // GetAllCidrsByClusterName
  // ---------------------------------------------------------------------------

  /** The shortcut CIDRs of a cluster: record by record, its side-B entries,
      until the first record whose side A names it, whose entry is the last
      one collected. */
  function CollectCidrs(items: seq<Connection>, clusterName: string): seq<CidrInfo>
  {
    if |items| == 0 then []
    else
      var c := items[0];
      if AMatch(c, clusterName) then [InfoA(c)]
      else (if BMatch(c, clusterName) then [InfoB(c)] else []) + CollectCidrs(items[1..], clusterName)
  }

  /** Every collected entry is a named side of some record. */
  lemma {:induction false} CollectSound(items: seq<Connection>, clusterName: string, x: CidrInfo)
    requires x in CollectCidrs(items, clusterName)
    ensures exists i :: (0 <= i < |items| &&
      ((AMatch(items[i], clusterName) && x == InfoA(items[i])) ||
       (BMatch(items[i], clusterName) && x == InfoB(items[i]))))
  {
    if !AMatch(items[0], clusterName) && (!BMatch(items[0], clusterName) || x != InfoB(items[0])) {
      CollectSound(items[1..], clusterName, x);
      var i :| 0 <= i < |items[1..]| &&
        ((AMatch(items[1..][i], clusterName) && x == InfoA(items[1..][i])) ||
         (BMatch(items[1..][i], clusterName) && x == InfoB(items[1..][i])));
      assert items[i + 1] == items[1..][i];
    }
  }

  /** Before any side-A match, records contribute in order. */
  lemma {:induction false} CollectAppend(a: seq<Connection>, b: seq<Connection>, clusterName: string)
    requires forall j :: 0 <= j < |a| ==> !AMatch(a[j], clusterName)
    ensures CollectCidrs(a + b, clusterName) == CollectCidrs(a, clusterName) + CollectCidrs(b, clusterName)
  {
    if |a| == 0 {
      assert a + b == b;
    } else {
      assert (a + b)[0] == a[0];
      assert (a + b)[1..] == a[1..] + b;
      CollectAppend(a[1..], b, clusterName);
    }
  }

  /** The first record whose side A names the cluster ends the collection:
      its side-A entry is the last one, its own side B and every later record
      are not looked at. */
  lemma CollectStopsAtAMatch(before: seq<Connection>, c: Connection, after: seq<Connection>, clusterName: string)
    requires forall j :: 0 <= j < |before| ==> !AMatch(before[j], clusterName)
    requires AMatch(c, clusterName)
    ensures CollectCidrs(before + [c] + after, clusterName) == CollectCidrs(before, clusterName) + [InfoA(c)]
  {
    assert before + [c] + after == before + ([c] + after);
    CollectAppend(before, [c] + after, clusterName);
  }

  /** A record's side-B entry is collected when no side A up to and
      including that record names the cluster. */
  lemma CollectCompleteB(items: seq<Connection>, i: nat, clusterName: string)
    requires i < |items|
    requires forall j :: 0 <= j <= i ==> !AMatch(items[j], clusterName)
    requires BMatch(items[i], clusterName)
    ensures InfoB(items[i]) in CollectCidrs(items, clusterName)
  {
    assert items == items[..i] + ([items[i]] + items[i + 1..]);
    CollectAppend(items[..i], [items[i]] + items[i + 1..], clusterName);
  }

  lemma CollectStep(items: seq<Connection>, i: nat, clusterName: string)
    requires i < |items|
    ensures CollectCidrs(items[i..], clusterName) ==
      if AMatch(items[i], clusterName) then [InfoA(items[i])]
      else (if BMatch(items[i], clusterName) then [InfoB(items[i])] else []) + CollectCidrs(items[i + 1..], clusterName)
  {
    assert items[i..][0] == items[i] && items[i..][1..] == items[i + 1..];
  }

  /** `GetAllCidrsByClusterName`: the shortcut CIDRs of the cluster, or an
      error when there are no records or nothing was collected. */
  method GetAllCidrsByClusterName(list: ConnectionList, clusterName: string) returns (r: Result<seq<CidrInfo>>)
    ensures NoConnections(list) ==> r == Err(NoForeignClusterConnections)
    ensures !NoConnections(list) && CollectCidrs(list.value, clusterName) == [] ==>
      r == Err(NoValidCidrsForCluster(clusterName))
    ensures !NoConnections(list) && CollectCidrs(list.value, clusterName) != [] ==>
      r == Ok(CollectCidrs(list.value, clusterName))
    ensures r.Ok? ==> |r.value| > 0
  {
    if list.None? || |list.value| == 0 {
      return Err(NoForeignClusterConnections);
    }
    var items := list.value;
    ghost var total := CollectCidrs(items, clusterName);
    var cidrs: seq<CidrInfo> := [];
    var i := 0;
    while i < |items|
      invariant 0 <= i <= |items|
      invariant cidrs + CollectCidrs(items[i..], clusterName) == total
    {
      var fcc := items[i];
      ghost var before := cidrs;
      ghost var rest := CollectCidrs(items[i + 1..], clusterName);
      CollectStep(items, i, clusterName);
      if fcc.clusterA == clusterName {
        if fcc.networkingA.podCIDR != "" {
          cidrs := cidrs + [InfoA(fcc)];
          assert cidrs == total;
          break;
        }
      }
      if fcc.clusterB == clusterName {
        if fcc.networkingB.podCIDR != "" {
          cidrs := cidrs + [InfoB(fcc)];
          assert before + ([InfoB(fcc)] + rest) == cidrs + rest;
        }
      }
      i := i + 1;
    }
    if i == |items| {
      assert items[i..] == [];
      assert cidrs + [] == cidrs;
    }
    if |cidrs| == 0 {
      return Err(NoValidCidrsForCluster(clusterName));
    }
    return Ok(cidrs);
  }

  // ---------------------------------------------------------------------------
  // GetCidrByClusterName
  // ---------------------------------------------------------------------------

  /** `GetCidrByClusterName`: the side-A pod CIDR of the first record whose
      side A names the cluster. */
  method GetCidrByClusterName(list: ConnectionList, clusterName: string) returns (r: Result<string>)
    ensures NoConnections(list) ==> r == Err(NoForeignClusterConnections)
    ensures !NoConnections(list) ==>
      (r.Ok? <==> exists i :: 0 <= i < |list.value| && AMatch(list.value[i], clusterName))
    ensures !NoConnections(list) && r.Err? ==> r.error == NoConnectionForCluster(clusterName)
    ensures r.Ok? ==> exists i :: (0 <= i < |list.value| && AMatch(list.value[i], clusterName) &&
      r.value == list.value[i].networkingA.podCIDR &&
      forall j :: 0 <= j < i ==> !AMatch(list.value[j], clusterName))
  {
    if list.None? || |list.value| == 0 {
      return Err(NoForeignClusterConnections);
    }
    var items := list.value;
    for i := 0 to |items|
      invariant forall j :: 0 <= j < i ==> !AMatch(items[j], clusterName)
    {
      if items[i].clusterA == clusterName {
        if items[i].networkingA.podCIDR != "" {
          return Ok(items[i].networkingA.podCIDR);
        }
      }
    }
    return Err(NoConnectionForCluster(clusterName));
  }

  /** The CIDR `GetCidrByClusterName` returns is the pod CIDR of the last
      entry `GetAllCidrsByClusterName` collects. */
  lemma FirstAMatchIsLastCollected(items: seq<Connection>, i: nat, clusterName: string)
    requires i < |items| && AMatch(items[i], clusterName)
    requires forall j :: 0 <= j < i ==> !AMatch(items[j], clusterName)
    ensures var cs := CollectCidrs(items, clusterName);
      |cs| > 0 && cs[|cs| - 1] == InfoA(items[i]) && cs[|cs| - 1].podCIDR == items[i].networkingA.podCIDR
  {
    assert items == items[..i] + [items[i]] + items[i + 1..];
    CollectStopsAtAMatch(items[..i], items[i], items[i + 1..], clusterName);
  }

  // ---------------------------------------------------------------------------
  // GetClusterNameFromNamespace
  // ---------------------------------------------------------------------------

  const TenantPrefix: string := "liqo-tenant-"

  /** `GetClusterNameFromNamespace` for the value of POD_NAMESPACE: the part
      after the tenant prefix, or "" when there is no such part. */
  function ClusterNameFromNamespace(podNamespace: string): (r: string)
    ensures r != "" <==> |podNamespace| > |TenantPrefix| && TenantPrefix <= podNamespace
    ensures r != "" ==> podNamespace == TenantPrefix + r
  {
    if podNamespace != "" && |podNamespace| > |TenantPrefix| && TenantPrefix <= podNamespace
    then podNamespace[|TenantPrefix|..]
    else ""
  }

  /** The tenant namespace of a cluster names that cluster. */
  lemma TenantNamespaceRoundTrip(clusterName: string)
    requires clusterName != ""
    ensures ClusterNameFromNamespace(TenantPrefix + clusterName) == clusterName
  {
    assert (TenantPrefix + clusterName)[|TenantPrefix|..] == clusterName;
  }

  // ---------------------------------------------------------------------------
  // IpBelongsToCIDR
  // ---------------------------------------------------------------------------

  /** `IpBelongsToCIDR`: whether the prefix of the address agrees with the
      block, or which of the two inputs does not parse. */
  function IpBelongsToCIDR(ipAddr: string, cidrStr: string): (r: Result<bool>)
    ensures ParseIPv4(ipAddr).None? ==> r == Err(InvalidIPAddress(ipAddr))
    ensures ParseIPv4(ipAddr).Some? && ParseCIDR(cidrStr).None? ==> r == Err(InvalidCIDR(cidrStr))
    ensures ParseIPv4(ipAddr).Some? && ParseCIDR(cidrStr).Some? ==>
      var c := ParseCIDR(cidrStr).value;
      r == Ok(PrefixMatch(ParseIPv4(ipAddr).value, c.network, c.prefixLen))
  {
    match ParseIPv4(ipAddr)
    case None => Err(InvalidIPAddress(ipAddr))
    case Some(ip) =>
      match ParseCIDR(cidrStr)
      case None => Err(InvalidCIDR(cidrStr))
      case Some(c) => ContainsIsPrefixMatch(c, ip); Ok(Contains(c, ip))
  }

  // ---------------------------------------------------------------------------
  // RemapAddressUsingCidr
  // ---------------------------------------------------------------------------

  /** The remap of `RemapAddressUsingCidr`: the block's network bits with the
      address's host bits, printed; or which input does not parse. */
  function RemapAddress(address: string, cidr: string): (r: Result<seq<string>>)
    ensures ParseIPv4(address).None? ==> r == Err(InvalidIPAddress(address))
    ensures ParseIPv4(address).Some? && ParseCIDR(cidr).None? ==> r == Err(InvalidCIDR(cidr))
    ensures ParseIPv4(address).Some? && ParseCIDR(cidr).Some? ==>
      r.Ok? && |r.value| == 1 && ParseIPv4(r.value[0]).Some? &&
      var ip, c, o := ParseIPv4(address).value, ParseCIDR(cidr).value, ParseIPv4(r.value[0]).value;
      forall k :: 0 <= k < 32 ==> Bit(o, k) == if k < c.prefixLen then Bit(c.network, k) else Bit(ip, k)
  {
    match ParseIPv4(address)
    case None => Err(InvalidIPAddress(address))
    case Some(ip) =>
      match ParseCIDR(cidr)
      case None => Err(InvalidCIDR(cidr))
      case Some(c) =>
        RemappedBits(ip, c);
        FormatParse(Remapped(ip, c));
        Ok([FormatIPv4(Remapped(ip, c))])
  }

  /** A remapped address belongs to the block it was remapped into. */
  lemma RemapAddressInBlock(address: string, cidr: string)
    requires RemapAddress(address, cidr).Ok?
    ensures IpBelongsToCIDR(RemapAddress(address, cidr).value[0], cidr) == Ok(true)
  {
    var ip, c := ParseIPv4(address).value, ParseCIDR(cidr).value;
    FormatParse(Remapped(ip, c));
    RemappedInBlock(ip, c);
    ContainsIsPrefixMatch(c, Remapped(ip, c));
  }

  /** An address already in the block is remapped to itself, character for
      character. */
  lemma RemapAddressFixesMembers(address: string, cidr: string)
    requires IpBelongsToCIDR(address, cidr) == Ok(true)
    ensures RemapAddress(address, cidr) == Ok([address])
  {
    var ip, c := ParseIPv4(address).value, ParseCIDR(cidr).value;
    ContainsIsPrefixMatch(c, ip);
    RemapFixesMembers(ip, c);
    ParseFormat(address);
  }

  /** `RemapAddressUsingCidr`: parses both inputs, combines them octet by
      octet into a fresh four-byte buffer and prints it. */
  method RemapAddressUsingCidr(address: string, cidr: string) returns (r: Result<seq<string>>)
    ensures r == RemapAddress(address, cidr)
  {
    var ip := ParseIPv4(address);
    if ip.None? {
      return Err(InvalidIPAddress(address));
    }
    var ipNet := ParseCIDR(cidr);
    if ipNet.None? {
      return Err(InvalidCIDR(cidr));
    }
    var network := ipNet.value.network;
    var mask := Mask(ipNet.value.prefixLen);
    ghost var expected := Remapped(ip.value, ipNet.value);
    var remapped := new bv8[4];
    for i := 0 to 4
      invariant forall j :: 0 <= j < i ==> remapped[j] == expected[j]
    {
      remapped[i] := RemapOctet(ip.value[i], network[i], mask[i]);
    }
    assert remapped[..] == expected;
    return Ok([FormatIPv4(remapped[..])]);
  }
}
