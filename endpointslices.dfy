/** The forging of a ShadowEndpointSlice for a peer cluster from a local
    EndpointSlice: the per-endpoint filter, the shortcut engine that remaps
    addresses reached through a shortcut connection, the default
    translation, the target reference rewrite and the ports copy. */
module EndpointSlices {
  import opened Base
  import opened Text
  import opened Ipv4
  import opened ForeignClusterConnections
  import opened Sequences

  // ---------------------------------------------------------------------------
  // Objects
  // ---------------------------------------------------------------------------

  /** The value of a `corev1.ObjectReference`. */
  datatype ObjectRef = ObjectRef(
    kind: string,
    namespace: string,
    name: string,
    uid: string,
    apiVersion: string,
    resourceVersion: string,
    fieldPath: string)

  /** A `*corev1.ObjectReference`: a heap object, since the forging rewrites
      its `Kind` in place and several endpoints may point to the same one. */
  class ObjectReference {
    var kind: string
    var namespace: string
    var name: string
    var uid: string
    var apiVersion: string
    var resourceVersion: string
    var fieldPath: string

    function Value(): ObjectRef
      reads this
    {
      ObjectRef(kind, namespace, name, uid, apiVersion, resourceVersion, fieldPath)
    }

    /** `DeepCopy` of a reference: a new object holding the same value. */
    constructor FromValue(v: ObjectRef)
      ensures Value() == v
    {
      kind := v.kind;
      namespace := v.namespace;
      name := v.name;
      uid := v.uid;
      apiVersion := v.apiVersion;
      resourceVersion := v.resourceVersion;
      fieldPath := v.fieldPath;
    }
  }

  datatype Conditions = Conditions(ready: Option<bool>, serving: Option<bool>, terminating: Option<bool>)

  datatype Hints = Hints(forZones: seq<string>)

  /** A `discoveryv1.Endpoint`, generic in how its target reference is held. */
  datatype Endpoint<R> = Endpoint(
    addresses: seq<string>,
    conditions: Conditions,
    hostname: Option<string>,
    targetRef: R,
    nodeName: Option<string>,
    zone: Option<string>,
    hints: Option<Hints>)

  /** An endpoint of the local slice, whose reference is a value. */
  type LocalEndpoint = Endpoint<Option<ObjectRef>>

  /** A forged endpoint, whose reference is a (possibly shared) object. */
  type RemoteEndpoint = Endpoint<ObjectReference?>

  /** A forged endpoint seen as a value. */
  function View(e: RemoteEndpoint): LocalEndpoint
    reads e.targetRef
  {
    Endpoint(e.addresses, e.conditions, e.hostname,
      if e.targetRef != null then Some(e.targetRef.Value()) else None,
      e.nodeName, e.zone, e.hints)
  }

  datatype EndpointPort = EndpointPort(
    name: Option<string>,
    protocol: Option<string>,
    port: Option<int>,
    appProtocol: Option<string>)

  /** A node of the local cluster, as the node lister returns it. */
  datatype Node = Node(name: string, labels: map<string, string>)

  /** What the forging depends on but does not compute: the node lister, the
      lookup of the remote cluster a node stands for, the names of the two
      clusters, the default address translator, `RemoteKind` and the value
      of the POD_NAMESPACE variable the cluster name is read from. */
  datatype Env = Env(
    getNode: string -> Option<Node>,
    remoteClusterIDOf: Node -> Option<string>,
    remoteCluster: string,
    localCluster: string,
    translator: seq<string> -> seq<string>,
    remoteKind: string -> string,
    podNamespace: string)

  // ---------------------------------------------------------------------------
  // EndpointToBeReflected
  // ---------------------------------------------------------------------------

  /** `EndpointToBeReflected`: an endpoint without a node is reflected; one
      whose node or cluster ID cannot be retrieved is not; otherwise it is
      reflected unless its node stands for the remote cluster itself. */
  function EndpointToBeReflected<R>(endpoint: Endpoint<R>, env: Env): (r: bool)
    ensures endpoint.nodeName.None? ==> r
    ensures endpoint.nodeName.Some? && env.getNode(endpoint.nodeName.value).None? ==> !r
    ensures (endpoint.nodeName.Some? && env.getNode(endpoint.nodeName.value).Some? &&
      env.remoteClusterIDOf(env.getNode(endpoint.nodeName.value).value).None?) ==> !r
  {
    if endpoint.nodeName.None? then true
    else match env.getNode(endpoint.nodeName.value)
      case None => false
      case Some(node) =>
        match env.remoteClusterIDOf(node)
        case None => false
        case Some(id) => id != env.remoteCluster
  }

  /** An endpoint is reflected exactly when it has no node, or its node and
      that node's cluster ID are known and the ID is not the remote cluster. */
  lemma ReflectedIff<R>(endpoint: Endpoint<R>, env: Env)
    ensures EndpointToBeReflected(endpoint, env) <==>
      endpoint.nodeName.None? ||
      exists node, id :: env.getNode(endpoint.nodeName.value) == Some(node) &&
        env.remoteClusterIDOf(node) == Some(id) && id != env.remoteCluster
  {
    if endpoint.nodeName.Some? {
      match env.getNode(endpoint.nodeName.value)
      case None =>
      case Some(node) =>
        match env.remoteClusterIDOf(node)
        case None =>
        case Some(id) =>
    }
  }

  // ---------------------------------------------------------------------------
  // RemoteEndpointTargetRef
  // ---------------------------------------------------------------------------

  function RefValue(ref: ObjectReference?): Option<ObjectRef>
    reads ref
  {
    if ref != null then Some(ref.Value()) else None
  }

  /** A reference value with its kind passed through `RemoteKind`. */
  function Rekind(ref: Option<ObjectRef>, remoteKind: string -> string): (r: Option<ObjectRef>)
    ensures r.Some? <==> ref.Some?
    ensures r.Some? ==> r.value == ref.value.(kind := remoteKind(ref.value.kind))
  {
    match ref
    case None => None
    case Some(v) => Some(v.(kind := remoteKind(v.kind)))
  }

  /** `RemoteEndpointTargetRef`: nil stays nil; otherwise the reference's
      kind is rewritten in place and the same reference is returned. */
  method RemoteEndpointTargetRef(ref: ObjectReference?, remoteKind: string -> string) returns (r: ObjectReference?)
    modifies ref
    ensures r == ref
    ensures ref != null ==> ref.Value() == old(ref.Value()).(kind := remoteKind(old(ref.kind)))
    ensures RefValue(ref) == Rekind(old(RefValue(ref)), remoteKind)
  {
    if ref == null {
      return null;
    }
    ref.kind := remoteKind(ref.kind);
    return ref;
  }

  // ---------------------------------------------------------------------------
  // The shortcut engine
  // ---------------------------------------------------------------------------

  /** What one pair gives an address: its remap into the pair's shortcut
      CIDR, when the address lies in the pair's pod CIDR and the remap
      succeeds; nothing when either step fails or the address is outside. */
  function Via(address: string, p: CidrInfo): Option<string>
  {
    if IpBelongsToCIDR(address, p.podCIDR) == Ok(true) && RemapAddress(address, p.shortcutPodCIDR).Ok?
    then Some(RemapAddress(address, p.shortcutPodCIDR).value[0])
    else None
  }

  /** The first answer `via` gives along `pairs`. */
  function FirstSome(pairs: seq<CidrInfo>, via: CidrInfo -> Option<string>): Option<string>
  {
    if |pairs| == 0 then None
    else if via(pairs[0]).Some? then via(pairs[0])
    else FirstSome(pairs[1..], via)
  }

  /** The shortcut address of `address`: what the first pair that serves it
      gives, if any. */
  function ShortcutFor(address: string, pairs: seq<CidrInfo>): Option<string>
  {
    FirstSome(pairs, p => Via(address, p))
  }

  /** The per-address resolution the forging runs with. */
  function Resolver(pairs: seq<CidrInfo>): string -> Option<string>
  {
    address => ShortcutFor(address, pairs)
  }

  /** The inner loop over the pairs for one address: a pair whose check or
      remap fails is passed over, the first that succeeds ends the loop. */
  method ResolveShortcut(address: string, pairs: seq<CidrInfo>) returns (r: Option<string>)
    ensures r == ShortcutFor(address, pairs)
  {
    for k := 0 to |pairs|
      invariant ShortcutFor(address, pairs[k..]) == ShortcutFor(address, pairs)
    {
      assert pairs[k..][0] == pairs[k] && pairs[k..][1..] == pairs[k + 1..];
      var result := IpBelongsToCIDR(address, pairs[k].podCIDR);
      if result.Err? {
        continue;
      }
      if result.value {
        var remappedaddr := RemapAddressUsingCidr(address, pairs[k].shortcutPodCIDR);
        if remappedaddr.Err? {
          continue;
        }
        return Some(remappedaddr.value[0]);
      }
    }
    return None;
  }

  /** An answer of the resolution as a run of shortcut addresses. */
  function Answer(r: Option<string>): seq<string>
  {
    match r
    case Some(s) => [s]
    case None => []
  }

  function Answers(resolve: string -> Option<string>): string -> seq<string>
  {
    address => Answer(resolve(address))
  }

  /** The shortcut addresses of a run of addresses, in address order. */
  function Shortcuts(addresses: seq<string>, resolve: string -> Option<string>): seq<string>
  {
    ConcatMap(addresses, Answers(resolve))
  }

  /** The reference of the endpoints forged from one local endpoint, after
      the `n` calls of `RemoteEndpointTargetRef` on its copy. */
  function ForgedRef(ref: Option<ObjectRef>, remoteKind: string -> string, n: nat): Option<ObjectRef>
  {
    if n == 0 then ref else Rekind(ForgedRef(ref, remoteKind, n - 1), remoteKind)
  }

  /** What every endpoint forged from `local` carries besides its addresses:
      only the readiness condition, the hostname, zone and hints of `local`,
      the given reference and the local cluster as node. */
  function Shell<R>(local: LocalEndpoint, ref: R, env: Env): Endpoint<R>
  {
    Endpoint([], Conditions(local.conditions.ready, None, None), local.hostname, ref,
      Some(env.localCluster), local.zone, local.hints)
  }

  /** The endpoints forged from one reflected local endpoint: one
      single-address endpoint per shortcut address when there is any,
      otherwise one endpoint with the translated addresses. */
  function ForgeLocal(local: LocalEndpoint, resolve: string -> Option<string>, env: Env): seq<LocalEndpoint>
  {
    var sc := Shortcuts(local.addresses, resolve);
    var shell := Shell(local, ForgedRef(local.targetRef, env.remoteKind, if |sc| > 0 then |sc| else 1), env);
    if |sc| > 0 then seq(|sc|, k requires 0 <= k < |sc| => shell.(addresses := [sc[k]]))
    else [shell.(addresses := env.translator(local.addresses))]
  }

  /** What one local endpoint contributes to the forged endpoints: its
      forged endpoints when the filter lets it through, nothing otherwise. */
  function Contribution(local: LocalEndpoint, resolve: string -> Option<string>, env: Env): seq<LocalEndpoint>
  {
    if EndpointToBeReflected(local, env) then ForgeLocal(local, resolve, env) else []
  }

  function Contributions(resolve: string -> Option<string>, env: Env): LocalEndpoint -> seq<LocalEndpoint>
  {
    local => Contribution(local, resolve, env)
  }

  /** What one local endpoint contributes to the shortcut addresses. */
  function Collected(local: LocalEndpoint, resolve: string -> Option<string>, env: Env): seq<string>
  {
    if EndpointToBeReflected(local, env) then Shortcuts(local.addresses, resolve) else []
  }

  function Collection(resolve: string -> Option<string>, env: Env): LocalEndpoint -> seq<string>
  {
    local => Collected(local, resolve, env)
  }

  /** The endpoints forged from a run of local endpoints, in order. */
  function Forged(locals: seq<LocalEndpoint>, resolve: string -> Option<string>, env: Env): seq<LocalEndpoint>
  {
    ConcatMap(locals, Contributions(resolve, env))
  }

  /** The shortcut addresses collected from a run of local endpoints, in
      order. */
  function ShortcutList(locals: seq<LocalEndpoint>, resolve: string -> Option<string>, env: Env): seq<string>
  {
    ConcatMap(locals, Collection(resolve, env))
  }

  /** The pairs the engine works with: those collected for the cluster the
      pod namespace names, or none when the records are missing or nothing
      was collected. */
  function EnginePairs(list: ConnectionList, env: Env): seq<CidrInfo>
  {
    if list.None? then [] else CollectCidrs(list.value, ClusterNameFromNamespace(env.podNamespace))
  }

  lemma ShortcutsStep(addresses: seq<string>, a: nat, resolve: string -> Option<string>)
    requires a < |addresses|
    ensures Shortcuts(addresses[..a + 1], resolve) == Shortcuts(addresses[..a], resolve) + Answer(resolve(addresses[a]))
  {
    ConcatMapStep(addresses, a, Answers(resolve));
  }

  /** The shortcut endpoints built in the walk over the addresses are the
      forged ones, once the shared reference has been rewritten once per
      shortcut address. */
  lemma ShortcutEndpointsView(local: LocalEndpoint, resolve: string -> Option<string>, env: Env,
                              out: seq<RemoteEndpoint>, ref: ObjectReference?)
    requires var sc := Shortcuts(local.addresses, resolve);
      |sc| > 0 && |out| == |sc| &&
      (forall k :: 0 <= k < |out| ==> out[k] == Shell(local, ref, env).(addresses := [sc[k]])) &&
      RefValue(ref) == ForgedRef(local.targetRef, env.remoteKind, |sc|)
    ensures |out| == |ForgeLocal(local, resolve, env)|
    ensures forall k :: 0 <= k < |out| ==> View(out[k]) == ForgeLocal(local, resolve, env)[k]
  {
  }

  /** The default endpoint built after the walk is the forged one. */
  lemma DefaultEndpointView(local: LocalEndpoint, resolve: string -> Option<string>, env: Env,
                            out: seq<RemoteEndpoint>, ref: ObjectReference?)
    requires Shortcuts(local.addresses, resolve) == []
    requires out == [Shell(local, ref, env).(addresses := env.translator(local.addresses))]
    requires RefValue(ref) == ForgedRef(local.targetRef, env.remoteKind, 1)
    ensures |out| == |ForgeLocal(local, resolve, env)|
    ensures forall k :: 0 <= k < |out| ==> View(out[k]) == ForgeLocal(local, resolve, env)[k]
  {
  }

  /** One address of the walk: when it has a shortcut address, the shared
      reference is rewritten once more and a single-address endpoint
      carrying it is appended. */
  method AddressStep(local: LocalEndpoint, pairs: seq<CidrInfo>, env: Env, ref: ObjectReference?,
                     address: string, out0: seq<RemoteEndpoint>, found0: seq<string>)
    returns (out: seq<RemoteEndpoint>, found: seq<string>)
    requires RefValue(ref) == ForgedRef(local.targetRef, env.remoteKind, |found0|)
    modifies ref
    ensures found == found0 + Answer(ShortcutFor(address, pairs))
    ensures out == out0 + if ShortcutFor(address, pairs).Some? then
      [Shell(local, ref, env).(addresses := [ShortcutFor(address, pairs).value])] else []
    ensures RefValue(ref) == ForgedRef(local.targetRef, env.remoteKind, |found|)
  {
    var remapped := ResolveShortcut(address, pairs);
    out, found := out0, found0;
    if remapped.Some? {
      found := found + [remapped.value];
      var r := RemoteEndpointTargetRef(ref, env.remoteKind);
      out := out + [Endpoint([remapped.value], Conditions(local.conditions.ready, None, None),
        local.hostname, r, Some(env.localCluster), local.zone, local.hints)];
    }
  }

  /** The walk over the addresses of one local endpoint: one single-address
      endpoint for each address that has a shortcut, all sharing `ref`,
      whose kind is rewritten once per such endpoint. */
  method ShortcutEndpoints(local: LocalEndpoint, pairs: seq<CidrInfo>, env: Env, ref: ObjectReference?)
    returns (out: seq<RemoteEndpoint>, found: seq<string>)
    requires RefValue(ref) == local.targetRef
    modifies ref
    ensures found == Shortcuts(local.addresses, Resolver(pairs))
    ensures |out| == |found|
    ensures forall k :: 0 <= k < |out| ==> out[k] == Shell(local, ref, env).(addresses := [found[k]])
    ensures RefValue(ref) == ForgedRef(local.targetRef, env.remoteKind, |found|)
  {
    ghost var shell := Shell(local, ref, env);
    out, found := [], [];
    for a := 0 to |local.addresses|
      invariant found == Shortcuts(local.addresses[..a], Resolver(pairs))
      invariant |out| == |found|
      invariant forall k :: 0 <= k < |out| ==> out[k] == shell.(addresses := [found[k]])
      invariant RefValue(ref) == ForgedRef(local.targetRef, env.remoteKind, |found|)
    {
      ShortcutsStep(local.addresses, a, Resolver(pairs));
      out, found := AddressStep(local, pairs, env, ref, local.addresses[a], out, found);
    }
    assert local.addresses[..|local.addresses|] == local.addresses;
  }

  /** One iteration of the loop over the local endpoints, for an endpoint
      the filter lets through: the deep copy of its reference, the walk over
      its addresses and either the shortcut endpoints or the default one. */
  method ForgeReflectedEndpoint(local: LocalEndpoint, pairs: seq<CidrInfo>, env: Env)
    returns (out: seq<RemoteEndpoint>, found: seq<string>)
    ensures found == Shortcuts(local.addresses, Resolver(pairs))
    ensures |out| == |ForgeLocal(local, Resolver(pairs), env)|
    ensures forall k :: 0 <= k < |out| ==> View(out[k]) == ForgeLocal(local, Resolver(pairs), env)[k]
    ensures forall k :: 0 <= k < |out| && out[k].targetRef != null ==> fresh(out[k].targetRef)
    ensures forall k, l :: 0 <= k < |out| && 0 <= l < |out| ==> out[k].targetRef == out[l].targetRef
  {
    var ref: ObjectReference? := null;
    if local.targetRef.Some? {
      ref := new ObjectReference.FromValue(local.targetRef.value);
    }
    out, found := ShortcutEndpoints(local, pairs, env, ref);
    if |found| > 0 {
      ShortcutEndpointsView(local, Resolver(pairs), env, out, ref);
      return;
    }
    var r := RemoteEndpointTargetRef(ref, env.remoteKind);
    out := [Endpoint(env.translator(local.addresses), Conditions(local.conditions.ready, None, None),
      local.hostname, r, Some(env.localCluster), local.zone, local.hints)];
    DefaultEndpointView(local, Resolver(pairs), env, out, ref);
  }

  lemma ForgedStep(locals: seq<LocalEndpoint>, i: nat, resolve: string -> Option<string>, env: Env)
    requires i < |locals|
    ensures Forged(locals[..i + 1], resolve, env) == Forged(locals[..i], resolve, env) + Contribution(locals[i], resolve, env)
    ensures ShortcutList(locals[..i + 1], resolve, env) == ShortcutList(locals[..i], resolve, env) + Collected(locals[i], resolve, env)
  {
    ConcatMapStep(locals, i, Contributions(resolve, env));
    ConcatMapStep(locals, i, Collection(resolve, env));
  }

  /** Views of two runs of forged endpoints put together. */
  lemma ViewsAppend(xs: seq<RemoteEndpoint>, ys: seq<RemoteEndpoint>, a: seq<LocalEndpoint>, b: seq<LocalEndpoint>)
    requires |xs| == |a| && forall k :: 0 <= k < |xs| ==> View(xs[k]) == a[k]
    requires |ys| == |b| && forall k :: 0 <= k < |ys| ==> View(ys[k]) == b[k]
    ensures |xs + ys| == |a + b| && forall k :: 0 <= k < |xs + ys| ==> View((xs + ys)[k]) == (a + b)[k]
  {
    forall k | 0 <= k < |xs + ys|
      ensures View((xs + ys)[k]) == (a + b)[k]
    {
      if k < |xs| {
        assert (xs + ys)[k] == xs[k];
      } else {
        assert (xs + ys)[k] == ys[k - |xs|];
      }
    }
  }

  /** `RemoteEndpointSliceEndpoints`: the forged endpoints of the reflected
      local endpoints, in order, and the shortcut addresses met on the way. */
  method RemoteEndpointSliceEndpoints(locals: seq<LocalEndpoint>, fcclist: ConnectionList, env: Env)
    returns (remotes: seq<RemoteEndpoint>, shortcutAddresses: seq<string>)
    ensures shortcutAddresses == ShortcutList(locals, Resolver(EnginePairs(fcclist, env)), env)
    ensures |remotes| == |Forged(locals, Resolver(EnginePairs(fcclist, env)), env)|
    ensures forall k :: 0 <= k < |remotes| ==>
      View(remotes[k]) == Forged(locals, Resolver(EnginePairs(fcclist, env)), env)[k]
    ensures forall k :: 0 <= k < |remotes| && remotes[k].targetRef != null ==> fresh(remotes[k].targetRef)
  {
    var clusterName := ClusterNameFromNamespace(env.podNamespace);
    var shortcutcidrs := GetAllCidrsByClusterName(fcclist, clusterName);
    var pairs := if shortcutcidrs.Ok? then shortcutcidrs.value else [];
    assert pairs == EnginePairs(fcclist, env);
    ghost var resolve := Resolver(pairs);
    remotes, shortcutAddresses := [], [];
    for i := 0 to |locals|
      invariant shortcutAddresses == ShortcutList(locals[..i], resolve, env)
      invariant |remotes| == |Forged(locals[..i], resolve, env)|
      invariant forall k :: 0 <= k < |remotes| ==> View(remotes[k]) == Forged(locals[..i], resolve, env)[k]
      invariant forall k :: 0 <= k < |remotes| && remotes[k].targetRef != null ==> fresh(remotes[k].targetRef)
    {
      ForgedStep(locals, i, resolve, env);
      if !EndpointToBeReflected(locals[i], env) {
        continue;
      }
      ghost var before := Forged(locals[..i], resolve, env);
      var out, found := ForgeReflectedEndpoint(locals[i], pairs, env);
      ViewsAppend(remotes, out, before, ForgeLocal(locals[i], resolve, env));
      remotes, shortcutAddresses := remotes + out, shortcutAddresses + found;
    }
    assert locals[..|locals|] == locals;
  }

  // ---------------------------------------------------------------------------
  // Properties of the resolution
  // ---------------------------------------------------------------------------

  /** `via` answers at `k` and nowhere before: that is the first answer. */
  lemma {:induction false} FirstSomeAt(pairs: seq<CidrInfo>, via: CidrInfo -> Option<string>, k: nat)
    requires k < |pairs| && via(pairs[k]).Some?
    requires forall j :: 0 <= j < k ==> via(pairs[j]).None?
    ensures FirstSome(pairs, via) == via(pairs[k])
  {
    if k > 0 {
      assert pairs[1..][k - 1] == pairs[k];
      FirstSomeAt(pairs[1..], via, k - 1);
    }
  }

  /** There is no first answer exactly when there is no answer at all. */
  lemma {:induction false} FirstSomeNone(pairs: seq<CidrInfo>, via: CidrInfo -> Option<string>)
    ensures FirstSome(pairs, via).None? <==> forall k :: 0 <= k < |pairs| ==> via(pairs[k]).None?
  {
    if |pairs| > 0 {
      FirstSomeNone(pairs[1..], via);
      assert forall k :: 1 <= k < |pairs| ==> pairs[k] == pairs[1..][k - 1];
    }
  }

  /** A first answer is given at some `k` and nowhere before it. */
  lemma {:induction false} FirstSomeWitness(pairs: seq<CidrInfo>, via: CidrInfo -> Option<string>) returns (k: nat)
    requires FirstSome(pairs, via).Some?
    ensures k < |pairs| && via(pairs[k]) == FirstSome(pairs, via)
    ensures forall j :: 0 <= j < k ==> via(pairs[j]).None?
  {
    if via(pairs[0]).Some? {
      return 0;
    }
    var k' := FirstSomeWitness(pairs[1..], via);
    assert forall j :: 1 <= j < k' + 1 ==> pairs[j] == pairs[1..][j - 1];
    return k' + 1;
  }

  /** The shortcut address of an address is `s` exactly when some pair gives
      `s` and no pair before it serves the address: the pairs are tried in
      order and the first that serves wins. */
  lemma ShortcutForFirstServing(address: string, pairs: seq<CidrInfo>, s: string)
    ensures ShortcutFor(address, pairs) == Some(s) <==>
      exists k :: (0 <= k < |pairs| && Via(address, pairs[k]) == Some(s) &&
        forall j :: 0 <= j < k ==> Via(address, pairs[j]).None?)
  {
    var via := p => Via(address, p);
    if ShortcutFor(address, pairs) == Some(s) {
      var k := FirstSomeWitness(pairs, via);
      assert Via(address, pairs[k]) == Some(s);
    }
    if exists k :: (0 <= k < |pairs| && Via(address, pairs[k]) == Some(s) &&
        forall j :: 0 <= j < k ==> Via(address, pairs[j]).None?) {
      var k :| 0 <= k < |pairs| && Via(address, pairs[k]) == Some(s) &&
        forall j :: 0 <= j < k ==> Via(address, pairs[j]).None?;
      FirstSomeAt(pairs, via, k);
    }
  }

  /** An address has no shortcut exactly when no pair serves it. */
  lemma ShortcutForNone(address: string, pairs: seq<CidrInfo>)
    ensures ShortcutFor(address, pairs).None? <==> forall k :: 0 <= k < |pairs| ==> Via(address, pairs[k]).None?
  {
    FirstSomeNone(pairs, p => Via(address, p));
  }

  /** A pair serves an address exactly when the address lies in its pod CIDR
      and the remap into its shortcut CIDR succeeds; what it gives then lies
      in the shortcut CIDR and holds no comma. */
  lemma ViaLandsInShortcutCidr(address: string, p: CidrInfo)
    ensures Via(address, p).Some? <==>
      IpBelongsToCIDR(address, p.podCIDR) == Ok(true) && RemapAddress(address, p.shortcutPodCIDR).Ok?
    ensures Via(address, p).Some? ==>
      IpBelongsToCIDR(Via(address, p).value, p.shortcutPodCIDR) == Ok(true) && ',' !in Via(address, p).value
  {
    if Via(address, p).Some? {
      RemapAddressInBlock(address, p.shortcutPodCIDR);
      var s := Via(address, p).value;
      ParseFormat(s);
      FormatHasNo(ParseIPv4(s).value, ',');
    }
  }

  /** A shortcut address lies in the shortcut CIDR of one of the pairs and
      holds no comma, so it is safe in a comma-separated label. */
  lemma ShortcutLandsInShortcutCidr(address: string, pairs: seq<CidrInfo>)
    requires ShortcutFor(address, pairs).Some?
    ensures exists k :: (0 <= k < |pairs| &&
      IpBelongsToCIDR(ShortcutFor(address, pairs).value, pairs[k].shortcutPodCIDR) == Ok(true))
    ensures ',' !in ShortcutFor(address, pairs).value
  {
    var k := FirstSomeWitness(pairs, p => Via(address, p));
    ViaLandsInShortcutCidr(address, pairs[k]);
  }

  /** Without pairs no address has a shortcut. */
  lemma NoPairsNoShortcut(address: string)
    ensures ShortcutFor(address, []) == None
  {
  }

  // ---------------------------------------------------------------------------
  // Properties of the forging
  // ---------------------------------------------------------------------------

  /** A resolution that never gives an address with a comma. */
  ghost predicate CommaFree(resolve: string -> Option<string>)
  {
    forall a :: resolve(a).Some? ==> ',' !in resolve(a).value
  }

  /** The resolution of the engine is comma free. */
  lemma ResolverCommaFree(pairs: seq<CidrInfo>)
    ensures CommaFree(Resolver(pairs))
  {
    forall a | Resolver(pairs)(a).Some?
      ensures ',' !in Resolver(pairs)(a).value
    {
      ShortcutLandsInShortcutCidr(a, pairs);
    }
  }

  /** No shortcut address of a run of addresses holds a comma. */
  lemma ShortcutsHaveNoComma(addresses: seq<string>, resolve: string -> Option<string>)
    requires CommaFree(resolve)
    ensures forall k :: 0 <= k < |Shortcuts(addresses, resolve)| ==> ',' !in Shortcuts(addresses, resolve)[k]
  {
    forall k | 0 <= k < |Shortcuts(addresses, resolve)|
      ensures ',' !in Shortcuts(addresses, resolve)[k]
    {
      var i, j := ConcatMapOrigin(addresses, Answers(resolve), k);
    }
  }

  /** No collected shortcut address holds a comma. */
  lemma ShortcutListHasNoComma(locals: seq<LocalEndpoint>, resolve: string -> Option<string>, env: Env)
    requires CommaFree(resolve)
    ensures forall k :: 0 <= k < |ShortcutList(locals, resolve, env)| ==> ',' !in ShortcutList(locals, resolve, env)[k]
  {
    forall k | 0 <= k < |ShortcutList(locals, resolve, env)|
      ensures ',' !in ShortcutList(locals, resolve, env)[k]
    {
      var i, j := ConcatMapOrigin(locals, Collection(resolve, env), k);
      ShortcutsHaveNoComma(locals[i].addresses, resolve);
    }
  }

  /** The endpoints forged and the shortcut addresses collected from two runs
      of local endpoints are those of the first run followed by those of the
      second. */
  lemma ForgedAppend(a: seq<LocalEndpoint>, b: seq<LocalEndpoint>, resolve: string -> Option<string>, env: Env)
    ensures Forged(a + b, resolve, env) == Forged(a, resolve, env) + Forged(b, resolve, env)
    ensures ShortcutList(a + b, resolve, env) == ShortcutList(a, resolve, env) + ShortcutList(b, resolve, env)
  {
    ConcatMapAppend(a, b, Contributions(resolve, env));
    ConcatMapAppend(a, b, Collection(resolve, env));
  }

  /** An endpoint the filter drops leaves the forged endpoints and the
      shortcut addresses as if it were not there. */
  lemma DroppedContributesNothing(a: seq<LocalEndpoint>, local: LocalEndpoint, b: seq<LocalEndpoint>,
                                  resolve: string -> Option<string>, env: Env)
    requires !EndpointToBeReflected(local, env)
    ensures Forged(a + [local] + b, resolve, env) == Forged(a + b, resolve, env)
    ensures ShortcutList(a + [local] + b, resolve, env) == ShortcutList(a + b, resolve, env)
  {
    ForgedAppend(a + [local], b, resolve, env);
    ForgedAppend(a, [local], resolve, env);
    ForgedAppend(a, b, resolve, env);
    assert [local][..0] == [];
  }

  /** What a forged endpoint keeps of the local endpoint it comes from: only
      the readiness condition, the hostname, zone and hints; its node is the
      local cluster. */
  predicate CarriesLocal<R>(e: Endpoint<R>, local: LocalEndpoint, env: Env)
  {
    e.conditions == Conditions(local.conditions.ready, None, None) &&
    e.hostname == local.hostname && e.zone == local.zone && e.hints == local.hints &&
    e.nodeName == Some(env.localCluster)
  }

  /** The endpoints forged from one local endpoint: one per shortcut
      address, carrying just that address, when there is any; otherwise a
      single one carrying the translated addresses. Each keeps what
      `CarriesLocal` names and the reference rewritten once per endpoint. */
  lemma ForgeLocalShape(local: LocalEndpoint, resolve: string -> Option<string>, env: Env)
    ensures var sc, out := Shortcuts(local.addresses, resolve), ForgeLocal(local, resolve, env);
      |out| == (if |sc| > 0 then |sc| else 1) &&
      (|sc| > 0 ==> forall k :: 0 <= k < |out| ==> out[k].addresses == [sc[k]]) &&
      (|sc| == 0 ==> out[0].addresses == env.translator(local.addresses)) &&
      forall k :: 0 <= k < |out| ==>
        CarriesLocal(out[k], local, env) && out[k].targetRef == ForgedRef(local.targetRef, env.remoteKind, |out|)
  {
  }

  /** `e` comes from one of `locals` that the filter lets through and keeps
      what `CarriesLocal` names of it. */
  predicate FromReflected(e: LocalEndpoint, locals: seq<LocalEndpoint>, env: Env)
  {
    exists i :: 0 <= i < |locals| && EndpointToBeReflected(locals[i], env) && CarriesLocal(e, locals[i], env)
  }

  /** Every forged endpoint comes from a local endpoint the filter lets
      through and keeps what `CarriesLocal` names of it. */
  lemma ForgedFromReflected(locals: seq<LocalEndpoint>, resolve: string -> Option<string>, env: Env)
    ensures forall k :: 0 <= k < |Forged(locals, resolve, env)| ==> FromReflected(Forged(locals, resolve, env)[k], locals, env)
  {
    forall k | 0 <= k < |Forged(locals, resolve, env)|
      ensures FromReflected(Forged(locals, resolve, env)[k], locals, env)
    {
      var i, j := ConcatMapOrigin(locals, Contributions(resolve, env), k);
      var c := Contribution(locals[i], resolve, env);
      assert EndpointToBeReflected(locals[i], env) && c == ForgeLocal(locals[i], resolve, env);
      ForgeLocalShape(locals[i], resolve, env);
      assert CarriesLocal(c[j], locals[i], env);
    }
  }

  function AddressesOf(e: LocalEndpoint): seq<string>
  {
    e.addresses
  }

  /** The addresses of the shortcut endpoints forged from `local`, in
      order, when it has any shortcut address; nothing otherwise. */
  function ShortcutEmitted(local: LocalEndpoint, resolve: string -> Option<string>, env: Env): seq<string>
  {
    if EndpointToBeReflected(local, env) && |Shortcuts(local.addresses, resolve)| > 0
    then ConcatMap(ForgeLocal(local, resolve, env), AddressesOf)
    else []
  }

  function ShortcutEmissions(resolve: string -> Option<string>, env: Env): LocalEndpoint -> seq<string>
  {
    local => ShortcutEmitted(local, resolve, env)
  }

  /** The collected shortcut addresses are, in emission order, exactly the
      single addresses of the emitted shortcut endpoints. */
  lemma ShortcutListIsEmitted(locals: seq<LocalEndpoint>, resolve: string -> Option<string>, env: Env)
    ensures ShortcutList(locals, resolve, env) == ConcatMap(locals, ShortcutEmissions(resolve, env))
  {
    forall local: LocalEndpoint
      ensures Collected(local, resolve, env) == ShortcutEmitted(local, resolve, env)
    {
      var sc := Shortcuts(local.addresses, resolve);
      if EndpointToBeReflected(local, env) && |sc| > 0 {
        ForgeLocalShape(local, resolve, env);
        ConcatMapSingles(ForgeLocal(local, resolve, env), AddressesOf, sc);
      }
    }
    ConcatMapAgree(locals, Collection(resolve, env), ShortcutEmissions(resolve, env));
  }

  /** The shared reference after `n` rewrites: present exactly when the
      local one is, and differing from it at most in its kind. */
  lemma {:induction false} ForgedRefOnlyKind(ref: Option<ObjectRef>, remoteKind: string -> string, n: nat)
    ensures ForgedRef(ref, remoteKind, n).Some? <==> ref.Some?
    ensures ref.Some? ==> ForgedRef(ref, remoteKind, n).value.(kind := ref.value.kind) == ref.value
  {
    if n > 0 {
      ForgedRefOnlyKind(ref, remoteKind, n - 1);
    }
  }

  /** The default endpoint of a reflected local endpoint. */
  function Translation(local: LocalEndpoint, env: Env): seq<LocalEndpoint>
  {
    if EndpointToBeReflected(local, env)
    then [Shell(local, ForgedRef(local.targetRef, env.remoteKind, 1), env).(addresses := env.translator(local.addresses))]
    else []
  }

  function Translations(env: Env): LocalEndpoint -> seq<LocalEndpoint>
  {
    local => Translation(local, env)
  }

  /** Without shortcut pairs (no records, or none for this cluster) the
      forging is the plain translation, one endpoint with the translated
      addresses per reflected local endpoint, and no shortcut address is
      collected. */
  lemma NoPairsIsTranslation(locals: seq<LocalEndpoint>, env: Env)
    ensures Forged(locals, Resolver([]), env) == ConcatMap(locals, Translations(env))
    ensures ShortcutList(locals, Resolver([]), env) == []
  {
    forall local: LocalEndpoint
      ensures Shortcuts(local.addresses, Resolver([])) == []
    {
      ConcatMapEmpty(local.addresses, Answers(Resolver([])));
    }
    ConcatMapAgree(locals, Contributions(Resolver([]), env), Translations(env));
    ConcatMapEmpty(locals, Collection(Resolver([]), env));
  }

  // ---------------------------------------------------------------------------
  // RemoteEndpointSlicePorts
  // ---------------------------------------------------------------------------

  /** `RemoteEndpointSlicePorts`: a copy of each local port, in order. */
  method RemoteEndpointSlicePorts(locals: seq<EndpointPort>) returns (remotes: seq<EndpointPort>)
    ensures remotes == locals
  {
    remotes := [];
    for i := 0 to |locals|
      invariant remotes == locals[..i]
    {
      remotes := remotes + [locals[i]];
    }
    assert locals[..|locals|] == locals;
  }

  // ---------------------------------------------------------------------------
  // RemoteShadowEndpointSlice
  // ---------------------------------------------------------------------------

  /** The label that tells the controller on the other side which addresses
      are shortcut addresses. */
  const ShortcutAddressesLabel: string := "liqo.io/shortcut-addresses"

  /** The labels of the forged slice: the shortcut addresses, joined by
      commas, under `ShortcutAddressesLabel` when there is any. */
  function WithShortcutLabel(labels: map<string, string>, shortcutAddresses: seq<string>): (r: map<string, string>)
    ensures |shortcutAddresses| == 0 ==> r == labels
    ensures |shortcutAddresses| > 0 ==>
      r.Keys == labels.Keys + {ShortcutAddressesLabel} && r[ShortcutAddressesLabel] == Join(shortcutAddresses, ',')
    ensures forall key :: key in labels && key != ShortcutAddressesLabel ==> key in r && r[key] == labels[key]
  {
    if |shortcutAddresses| > 0 then labels[ShortcutAddressesLabel := Join(shortcutAddresses, ',')] else labels
  }

  /** Addresses free of commas are read back from the label unchanged, in
      order. */
  lemma LabelRoundTrip(labels: map<string, string>, shortcutAddresses: seq<string>)
    requires |shortcutAddresses| > 0
    requires forall k :: 0 <= k < |shortcutAddresses| ==> ',' !in shortcutAddresses[k]
    ensures Split(WithShortcutLabel(labels, shortcutAddresses)[ShortcutAddressesLabel], ',') == shortcutAddresses
  {
    SplitJoin(shortcutAddresses, ',');
  }

  /** A local `EndpointSlice`, as far as the forging reads it. */
  datatype EndpointSlice = EndpointSlice(
    addressType: string,
    endpoints: seq<LocalEndpoint>,
    ports: seq<EndpointPort>)

  /** The forged `ShadowEndpointSlice`: its labels and its endpoint slice
      template. */
  datatype ShadowEndpointSlice = ShadowEndpointSlice(
    labels: map<string, string>,
    addressType: string,
    endpoints: seq<RemoteEndpoint>,
    ports: seq<EndpointPort>)

  /** `RemoteShadowEndpointSlice`, given the labels the object meta forging
      produced: the address type, the forged endpoints, the copied ports and
      the labels with the shortcut addresses added. */
  method RemoteShadowEndpointSlice(local: EndpointSlice, metaLabels: map<string, string>, fcclist: ConnectionList, env: Env)
    returns (remote: ShadowEndpointSlice)
    ensures var resolve := Resolver(EnginePairs(fcclist, env));
      remote.labels == WithShortcutLabel(metaLabels, ShortcutList(local.endpoints, resolve, env)) &&
      |remote.endpoints| == |Forged(local.endpoints, resolve, env)| &&
      forall k :: 0 <= k < |remote.endpoints| ==> View(remote.endpoints[k]) == Forged(local.endpoints, resolve, env)[k]
    ensures remote.addressType == local.addressType && remote.ports == local.ports
    ensures forall k :: 0 <= k < |remote.endpoints| && remote.endpoints[k].targetRef != null ==>
      fresh(remote.endpoints[k].targetRef)
  {
    var endpoints, shortcutAddresses := RemoteEndpointSliceEndpoints(local.endpoints, fcclist, env);
    var labels := metaLabels;
    if |shortcutAddresses| > 0 {
      labels := labels[ShortcutAddressesLabel := Join(shortcutAddresses, ',')];
    }
    var ports := RemoteEndpointSlicePorts(local.ports);
    remote := ShadowEndpointSlice(labels, local.addressType, endpoints, ports);
  }

  /** The shortcut addresses of a forged slice are read back from its label
      exactly as collected. */
  lemma ShortcutLabelRoundTrip(local: EndpointSlice, metaLabels: map<string, string>, fcclist: ConnectionList, env: Env)
    requires |ShortcutList(local.endpoints, Resolver(EnginePairs(fcclist, env)), env)| > 0
    ensures var sa := ShortcutList(local.endpoints, Resolver(EnginePairs(fcclist, env)), env);
      Split(WithShortcutLabel(metaLabels, sa)[ShortcutAddressesLabel], ',') == sa
  {
    var resolve := Resolver(EnginePairs(fcclist, env));
    ResolverCommaFree(EnginePairs(fcclist, env));
    ShortcutListHasNoComma(local.endpoints, resolve, env);
    LabelRoundTrip(metaLabels, ShortcutList(local.endpoints, resolve, env));
  }
}
