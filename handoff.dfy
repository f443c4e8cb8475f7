/** The two halves together: the local cluster forges a ShadowEndpointSlice
    and records its shortcut addresses in a label; the remote cluster reads
    the label back and maps the endpoints. */
module Handoff {
  import opened Base
  import opened Text
  import opened Sequences
  import opened ForeignClusterConnections
  import opened EndpointSlices
  import opened Mapping

  /** The shortcut addresses read back from the label are the ones the
      forging emitted; every occurrence of them in the forged endpoints
      survives the mapping pass, and none of them is ever handed to
      `MapAddress`. */
  lemma ShortcutAddressesSurviveMapping(local: EndpointSlice, metaLabels: map<string, string>, fcclist: ConnectionList,
                                        env: Env, clusterID: string, mapAddress: Mapper)
    requires |ShortcutList(local.endpoints, Resolver(EnginePairs(fcclist, env)), env)| > 0
    ensures var resolve := Resolver(EnginePairs(fcclist, env));
      var sa := ShortcutList(local.endpoints, resolve, env);
      var read := Split(WithShortcutLabel(metaLabels, sa)[ShortcutAddressesLabel], ',');
      var eps := Forged(local.endpoints, resolve, env);
      read == sa &&
      (forall i, j :: 0 <= i < |eps| && 0 <= j < |eps[i].addresses| && eps[i].addresses[j] in sa ==>
        MapAll(clusterID, eps, read, mapAddress)[i].addresses[j] == eps[i].addresses[j]) &&
      (forall k :: 0 <= k < |Calls(clusterID, eps, read, mapAddress)| ==>
        Calls(clusterID, eps, read, mapAddress)[k] !in sa)
  {
    var resolve := Resolver(EnginePairs(fcclist, env));
    var sa := ShortcutList(local.endpoints, resolve, env);
    var eps := Forged(local.endpoints, resolve, env);
    ShortcutLabelRoundTrip(local, metaLabels, fcclist, env);
    forall i, j | 0 <= i < |eps| && 0 <= j < |eps[i].addresses| && eps[i].addresses[j] in sa
      ensures MapAll(clusterID, eps, sa, mapAddress)[i].addresses[j] == eps[i].addresses[j]
    {
      ShortcutAddressesUntouched(clusterID, eps, sa, mapAddress, i, j);
    }
    CallsAvoidShortcuts(clusterID, eps, sa, mapAddress);
  }

  /** A local endpoint without a target reference that gets shortcuts is
      forged into endpoints that carry a shortcut address and no reference;
      handed to the pass as written with those shortcut addresses listed,
      they make it panic at the first address of the first endpoint. */
  lemma {:induction false} ForgedShortcutWithoutReference(local: LocalEndpoint, resolve: string -> Option<string>, env: Env,
                                                          clusterID: string, shortcutAddresses: seq<string>, mapAddress: Mapper)
    requires local.targetRef.None?
    requires |Shortcuts(local.addresses, resolve)| > 0
    requires forall k :: 0 <= k < |Shortcuts(local.addresses, resolve)| ==> Shortcuts(local.addresses, resolve)[k] in shortcutAddresses
    ensures var out := ForgeLocal(local, resolve, env);
      |out| > 0 &&
      (forall k :: 0 <= k < |out| ==>
        out[k].addresses[0] in Shortcuts(local.addresses, resolve) && out[k].targetRef.None?) &&
      PassAsWritten(clusterID, out, shortcutAddresses, mapAddress) == Panicked(0, 0)
  {
    var out := ForgeLocal(local, resolve, env);
    ForgeLocalShape(local, resolve, env);
    ForgedRefOnlyKind(local.targetRef, env.remoteKind, |out|);
    assert out[0].addresses[0] in shortcutAddresses;
    assert WalkRow(clusterID, out[0].addresses, shortcutAddresses, mapAddress, out[0].targetRef) == RowPanicked(0);
  }
}
