# Shortcut-aware endpoint translation in liqo

This project models the path by which liqo reflects a local Kubernetes
EndpointSlice into a ShadowEndpointSlice for a peer cluster, when that peer
can reach some pods directly over a *shortcut* (a ForeignClusterConnection
between the two clusters) instead of through the default IPAM remap. The
model has three parts, in four modules, plus shared helpers:

- `ForeignClusterConnections` and `Ipv4`. These cover the queries that pick the
  `CidrInfo` pairs (pod CIDR, shortcut pod CIDR) for a cluster out of the
  connection records. They also cover IPv4 parsing and prefix-match containment
  (section 3.1 of RFC 4632), the host-bit-preserving remap of an address into
  another block, and the `liqo-tenant-` namespace prefix strip.
- `EndpointSlices`, the forging on the local side:
  - the endpoint filter (`EndpointToBeReflected`);
  - the engine that emits one single-address endpoint per address with a
    shortcut, or else one endpoint with translated addresses;
  - the rewrite of the target reference;
  - the port copy;
  - the `liqo.io/shortcut-addresses` label, which carries the shortcut
    addresses as a comma-joined list.
- `Mapping`, the consumer on the remote side. It overwrites every endpoint
  address in place with the IPAM mapping, skips the shortcut addresses, and
  stops at the first mapping error. `Mapping.PassAsWritten` is the pass as
  the source writes it, which panics in its skip branch on an endpoint without
  a target reference (see Findings).
- `Handoff` joins the two sides: every address the forging recorded
  survives the mapping pass, and none of them is ever handed to the mapper.
  `Scenarios` works one example through the parsers and the engine.
- `Base` (Option, Result, Error), `Text` (split, join, decimal notation),
  `Bytes` and `Sequences` (ordered concatenation of per-element parts) are
  helpers.

Code that mutates state is modelled as imperative Dafny, each piece proved
against a specification function:

- `RemapAddressUsingCidr` fills a 4-byte array in a loop.
- `GetForeignClusterConnectionsCIDRs` appends in a loop over every record.
- `GetAllCidrsByClusterName` appends in a loop that the `break` at
  foreignclusterconnections.go:95 ends at the first A-side match.
- `GetCidrByClusterName` returns early from its loop.
- The engine runs nested loops with the shared, mutated target reference
  modelled as a heap object (`EndpointSlices.ObjectReference`).
- `MapEndpointsWithConfiguration` works in place on an `array` of
  endpoints.

The oracles become parameters:

- the node lister and the cluster-ID lookup (`Env.getNode`, `Env.remoteClusterIDOf`);
- the address `translator`;
- `RemoteKind`;
- the IPAM `MapAddress` call (`Mapping.Mapper`);
- the cluster names.

## Model

| member | source | states |
|---|---|---|
| ForeignClusterConnections.GetForeignClusterConnectionsCIDRs | pkg/utils/virtualkubelet/foreignclusterconnections.go:58-77 | a nil or empty record list gives the no-records error; otherwise the result is exactly the non-empty side-A pod CIDRs in record order, or the no-valid-CIDRs error when there are none |
| ForeignClusterConnections.APodCIDRsMembers | pkg/utils/virtualkubelet/foreignclusterconnections.go:63-70 | a string is collected iff it is non-empty and is the side-A pod CIDR of some record |
| ForeignClusterConnections.GetAllCidrsByClusterName | pkg/utils/virtualkubelet/foreignclusterconnections.go:81-114 | a nil or empty list gives the no-records error; an empty collection gives the per-cluster error; otherwise the result is the collected pairs, so success implies a non-empty result |
| ForeignClusterConnections.CollectSound | pkg/utils/virtualkubelet/foreignclusterconnections.go:87-107 | every collected pair is the A-side or B-side pair of a record whose matching side names the cluster |
| ForeignClusterConnections.CollectAppend | pkg/utils/virtualkubelet/foreignclusterconnections.go:87-107 | while no record has matched on side A, the pairs of a concatenation are those of the first part followed by those of the second (record order) |
| ForeignClusterConnections.CollectStopsAtAMatch | pkg/utils/virtualkubelet/foreignclusterconnections.go:88-96 | once a record matches on side A with a pod CIDR, its pair is the last one collected and neither its side B nor any later record is examined |
| ForeignClusterConnections.FirstAMatchIsLastCollected | pkg/utils/virtualkubelet/foreignclusterconnections.go:88-96 | the first side-A match ends the collection: the last collected pair is its pair |
| ForeignClusterConnections.CollectCompleteB | pkg/utils/virtualkubelet/foreignclusterconnections.go:98-106 | a side-B match with a pod CIDR that no side-A match precedes is collected |
| ForeignClusterConnections.GetCidrByClusterName | pkg/utils/virtualkubelet/foreignclusterconnections.go:117-131 | a nil or empty list gives the no-records error; otherwise it succeeds iff some record matches on side A with a pod CIDR, and then returns the side-A pod CIDR of the first such record; otherwise it gives the per-cluster error; side B is never consulted |
| ForeignClusterConnections.ClusterNameFromNamespace | pkg/utils/virtualkubelet/foreignclusterconnections.go:152-166 | the result is non-empty iff the namespace starts with `liqo-tenant-` and is strictly longer; then the namespace is the prefix followed by the result |
| ForeignClusterConnections.TenantNamespaceRoundTrip | pkg/utils/virtualkubelet/foreignclusterconnections.go:156-161 | prefixing a non-empty cluster name and stripping it again gives the name back |
| ForeignClusterConnections.IpBelongsToCIDR | pkg/utils/virtualkubelet/foreignclusterconnections.go:134-149 | an unparsable address or block gives its own error; otherwise the answer is whether the address agrees with the network on the first prefix-length bits |
| ForeignClusterConnections.RemapAddress | pkg/utils/virtualkubelet/foreignclusterconnections.go:169-196 | the error cases of the parses; on success exactly one address, whose first prefix-length bits are the network's and whose remaining bits are the input's |
| ForeignClusterConnections.RemapAddressInBlock | pkg/utils/virtualkubelet/foreignclusterconnections.go:189-195 | a remapped address lies in the block it was remapped into |
| ForeignClusterConnections.RemapAddressFixesMembers | pkg/utils/virtualkubelet/foreignclusterconnections.go:189-195 | an address already inside the block is remapped to itself |
| ForeignClusterConnections.RemapAddressUsingCidr | pkg/utils/virtualkubelet/foreignclusterconnections.go:169-196 | the byte loop over the 4-byte buffer computes the remap the function specifies |
| Ipv4.ParseOctet | pkg/utils/virtualkubelet/foreignclusterconnections.go:136 | a field is accepted iff it is canonical decimal (no leading zero) below 256 |
| Ipv4.FormatParse | pkg/utils/virtualkubelet/foreignclusterconnections.go:195 | the dotted-quad notation of an address reads back as that address |
| Ipv4.ParseFormat | pkg/utils/virtualkubelet/foreignclusterconnections.go:195 | an address that parses is written back exactly as it was read |
| Ipv4.PrefixLenRoundTrip | pkg/utils/virtualkubelet/foreignclusterconnections.go:142 | every prefix length from 0 to 32, written in shortest decimal notation, parses back to itself |
| Ipv4.PrefixLenLeadingZero | pkg/utils/virtualkubelet/foreignclusterconnections.go:142 | a leading zero does not change the prefix length read, or whether one is read, as the mask reader of `net.ParseCIDR` allows leading zeros where the octet reader does not |
| Ipv4.ParseCIDR | pkg/utils/virtualkubelet/foreignclusterconnections.go:142 | a block is accepted iff it is an address, a slash and a valid prefix length; the prefix length is the one written after the slash, and the network agrees with the written address on the bits below it and has every bit past it cleared |
| Ipv4.MaskAddressBits | pkg/utils/virtualkubelet/foreignclusterconnections.go:142 | masking keeps exactly the bits below the prefix length |
| Ipv4.ContainsIsPrefixMatch | pkg/utils/virtualkubelet/foreignclusterconnections.go:148 | block containment is agreement with the network on the first prefix-length bits |
| Ipv4.RemappedBits | pkg/utils/virtualkubelet/foreignclusterconnections.go:189-193 | each of the 32 bits of the remap comes from the network below the prefix length and from the address above it |
| Ipv4.RemappedInBlock | pkg/utils/virtualkubelet/foreignclusterconnections.go:191-193 | the remap of any address lies in the block |
| Ipv4.RemapFixesMembers | pkg/utils/virtualkubelet/foreignclusterconnections.go:191-193 | an address in the block is its own remap |
| Text.SplitJoin | pkg/virtualKubelet/forge/endpointslices.go:97 | splitting the join of comma-free, non-empty lists at the separator gives the list back |
| Text.JoinSplit | pkg/virtualKubelet/forge/endpointslices.go:97 | joining the split of a string gives it back |
| EndpointSlices.EndpointToBeReflected | pkg/virtualKubelet/forge/endpointslices.go:54-82 | an endpoint without a node is reflected; one whose node or cluster ID cannot be retrieved is not |
| EndpointSlices.ReflectedIff | pkg/virtualKubelet/forge/endpointslices.go:54-82 | reflected iff there is no node name, or the node and its cluster ID are both found and the ID differs from the remote cluster |
| EndpointSlices.Rekind | pkg/virtualKubelet/forge/endpointslices.go:214-220 | the reference value after `RemoteEndpointTargetRef`: no reference stays none, otherwise only the kind changes, to its remote kind; it is the value-level new state that `RemoteEndpointTargetRef` ensures and that `ForgedRefOnlyKind` iterates |
| EndpointSlices.RemoteEndpointTargetRef | pkg/virtualKubelet/forge/endpointslices.go:214-220 | the same reference is returned, and the object it points to has its kind rewritten in place and nothing else changed |
| EndpointSlices.ResolveShortcut | pkg/virtualKubelet/forge/endpointslices.go:154-189 | the pair loop, which passes over pairs whose check or remap fails, returns the answer of the first pair that serves the address |
| EndpointSlices.ShortcutForFirstServing | pkg/virtualKubelet/forge/endpointslices.go:154-189 | an address gets a shortcut address iff some pair serves it with that address and no earlier pair serves it |
| EndpointSlices.ShortcutForNone | pkg/virtualKubelet/forge/endpointslices.go:154-189 | an address gets no shortcut iff no pair serves it |
| EndpointSlices.ViaLandsInShortcutCidr | pkg/virtualKubelet/forge/endpointslices.go:156-168 | a pair serves an address iff the address lies in the pair's pod CIDR and the remap into the shortcut CIDR succeeds; what it gives lies in the shortcut CIDR and has no comma |
| EndpointSlices.ShortcutLandsInShortcutCidr | pkg/virtualKubelet/forge/endpointslices.go:154-189 | a shortcut address lies in the shortcut CIDR of some pair and has no comma |
| EndpointSlices.NoPairsNoShortcut | pkg/virtualKubelet/forge/endpointslices.go:136-139 | with no pairs no address has a shortcut |
| EndpointSlices.AddressStep | pkg/virtualKubelet/forge/endpointslices.go:153-189 | one address appends its shortcut address, if any, and one single-address endpoint for it, sharing the reference that has been rewritten once more |
| EndpointSlices.ShortcutEndpoints | pkg/virtualKubelet/forge/endpointslices.go:150-190 | the address walk records the shortcut addresses in address order and one endpoint per shortcut address; the shared reference's kind is rewritten once per shortcut address |
| EndpointSlices.ForgeReflectedEndpoint | pkg/virtualKubelet/forge/endpointslices.go:147-207 | the endpoints forged from one reflected endpoint are those the specification gives; their references are fresh and one object shared by all of them |
| EndpointSlices.RemoteEndpointSliceEndpoints | pkg/virtualKubelet/forge/endpointslices.go:123-211 | the outer loop yields the forged endpoint list and the shortcut address list of the whole slice, in order, with fresh references |
| EndpointSlices.ForgedAppend | pkg/virtualKubelet/forge/endpointslices.go:141-208 | the forging of a concatenation is the concatenation of the forgings, for endpoints and shortcut addresses alike |
| EndpointSlices.DroppedContributesNothing | pkg/virtualKubelet/forge/endpointslices.go:141-145 | an endpoint the filter rejects adds nothing to either list |
| EndpointSlices.ForgeLocalShape | pkg/virtualKubelet/forge/endpointslices.go:175-207 | with shortcut matches, one single-address endpoint per shortcut address in address order and no default endpoint; without, exactly one endpoint with the translated addresses; every endpoint carries only the readiness condition, the hostname, zone and hints of the local one, the local cluster as node and the rewritten reference |
| EndpointSlices.ForgedFromReflected | pkg/virtualKubelet/forge/endpointslices.go:148-206 | every forged endpoint comes from a reflected local endpoint and carries its fields as above |
| EndpointSlices.ShortcutListIsEmitted | pkg/virtualKubelet/forge/endpointslices.go:173-185 | the shortcut address list is, in emission order, exactly the single addresses of the emitted shortcut endpoints |
| EndpointSlices.ForgedRefOnlyKind | pkg/virtualKubelet/forge/endpointslices.go:179 | however often the kind is rewritten, a reference stays present iff it was, and nothing but its kind differs |
| EndpointSlices.NoPairsIsTranslation | pkg/virtualKubelet/forge/endpointslices.go:198-207 | with no pairs every reflected endpoint gives exactly one endpoint with the translated addresses, and no shortcut address is recorded |
| EndpointSlices.ShortcutListHasNoComma | pkg/virtualKubelet/forge/endpointslices.go:173 | no recorded shortcut address contains the label's separator |
| EndpointSlices.RemoteEndpointSlicePorts | pkg/virtualKubelet/forge/endpointslices.go:223-231 | the ports are copied element by element, same length and order |
| EndpointSlices.WithShortcutLabel | pkg/virtualKubelet/forge/endpointslices.go:96-98 | the label is added only for a non-empty list, with the comma-join as its value; every other label is kept |
| EndpointSlices.LabelRoundTrip | pkg/virtualKubelet/forge/endpointslices.go:96-98 | splitting the label value at commas gives back a non-empty, comma-free address list |
| EndpointSlices.RemoteShadowEndpointSlice | pkg/virtualKubelet/forge/endpointslices.go:85-110 | the shadow slice keeps the address type, copies the ports, carries the forged endpoints and the labels with the shortcut label added |
| EndpointSlices.ShortcutLabelRoundTrip | pkg/virtualKubelet/forge/endpointslices.go:93-98 | reading the label of a forged shadow slice back gives exactly the recorded shortcut addresses |
| Mapping.Contains | pkg/liqo-controller-manager/offloading/shadowendpointslice-controller/mapping.go:67-74 | the linear search answers true iff the string is an element of the list |
| Mapping.RowStop | pkg/liqo-controller-manager/offloading/shadowendpointslice-controller/mapping.go:44-57 | the first address position of an endpoint that is not a shortcut and whose mapping fails, or the end |
| Mapping.StopRow | pkg/liqo-controller-manager/offloading/shadowendpointslice-controller/mapping.go:33-61 | the first endpoint with a failing address position, or the end |
| Mapping.RowError | pkg/liqo-controller-manager/offloading/shadowendpointslice-controller/mapping.go:54-57 | an endpoint gives an error iff it has a failing address position |
| Mapping.MapEndpointsWithConfiguration | pkg/liqo-controller-manager/offloading/shadowendpointslice-controller/mapping.go:29-64 | the array afterwards, the error returned and the addresses handed to the mapper are those the specification functions give of the original array |
| Mapping.MapRow | pkg/liqo-controller-manager/offloading/shadowendpointslice-controller/mapping.go:44-60 | one endpoint is rewritten up to its first failing address and no other endpoint changes |
| Mapping.FailureEnds | pkg/liqo-controller-manager/offloading/shadowendpointslice-controller/mapping.go:54-57 | a failure at endpoint i leaves rows before and including i written, later rows untouched, and returns that row's error |
| Mapping.SuccessEnds | pkg/liqo-controller-manager/offloading/shadowendpointslice-controller/mapping.go:61-63 | when no row fails, every row is written and no error is returned |
| Mapping.MapAllShape | pkg/liqo-controller-manager/offloading/shadowendpointslice-controller/mapping.go:33-61 | the number of endpoints, the number of addresses of each and every field other than the addresses are unchanged |
| Mapping.ShortcutAddressesUntouched | pkg/liqo-controller-manager/offloading/shadowendpointslice-controller/mapping.go:47-52 | an address in the shortcut list is left unchanged |
| Mapping.CallsAvoidShortcuts | pkg/liqo-controller-manager/offloading/shadowendpointslice-controller/mapping.go:47-54 | the mapper is never called on an address in the shortcut list |
| Mapping.SuccessTranslatesAll | pkg/liqo-controller-manager/offloading/shadowendpointslice-controller/mapping.go:54-59 | on success every address outside the shortcut list is replaced by the mapper's result on its original value |
| Mapping.ErrorIffSomeFailure | pkg/liqo-controller-manager/offloading/shadowendpointslice-controller/mapping.go:54-57 | an error is returned iff some non-shortcut address fails to map |
| Mapping.FailureStopsAtFirst | pkg/liqo-controller-manager/offloading/shadowendpointslice-controller/mapping.go:54-57 | on error, the error is that of the first failing position in row-major order; the positions before it are mapped, and it and every later position are untouched |
| Mapping.WalkRowAgrees | pkg/liqo-controller-manager/offloading/shadowendpointslice-controller/mapping.go:44-60 | the inner loop as written, nil reference included, panics exactly when a shortcut address of an endpoint without a reference comes before the row's first failing translation, at the first such address; otherwise it writes the row as `Written` does and fails with the mapper's error exactly at `RowStop` |
| Mapping.PassAsWrittenAgrees | pkg/liqo-controller-manager/offloading/shadowendpointslice-controller/mapping.go:33-64 | the pass as written panics exactly when it reaches a shortcut address of an endpoint without a reference, at the first such position in row order; otherwise it returns the endpoints `MapAll` gives and the error `MapError` gives |
| Mapping.SkipWithoutReference | pkg/liqo-controller-manager/offloading/shadowendpointslice-controller/mapping.go:48-51 | on an endpoint whose one address is a shortcut address and which has no target reference, the pass as written panics at its first position, while the corrected pass leaves it unchanged and returns no error |
| Handoff.ShortcutAddressesSurviveMapping | pkg/liqo-controller-manager/offloading/shadowendpointslice-controller/mapping.go:47-52 | every shortcut address that the forging recorded and the mapping pass reads back from the label is left unchanged in the forged endpoints, and none is handed to the mapper |
| Handoff.ForgedShortcutWithoutReference | pkg/liqo-controller-manager/offloading/shadowendpointslice-controller/mapping.go:49-50 | a local endpoint without a reference that has shortcuts is forged into endpoints that carry a shortcut address and no reference, and the pass as written panics on them at the first address of the first endpoint |
| Scenarios.ObservedIsRemapped | pkg/utils/virtualkubelet/foreignclusterconnections.go:169-196 | 10.0.1.5 lies in 10.0.1.0/24 and remaps into 10.244.0.0/24 as 10.244.0.5 |
| Scenarios.ExampleShortcuts | pkg/virtualKubelet/forge/endpointslices.go:154-189 | with the pair (10.0.1.0/24, 10.244.0.0/24), 10.0.1.5 has shortcut address 10.244.0.5 and 10.0.9.9 has none |
| Scenarios.MixedEndpointExample | pkg/virtualKubelet/forge/endpointslices.go:175-195 | an endpoint with addresses 10.0.1.5 and 10.0.9.9 is forged into one endpoint with only 10.244.0.5 |
| Scenarios.DefaultEndpointExample | pkg/virtualKubelet/forge/endpointslices.go:198-207 | an endpoint with only 10.0.9.9 is forged into one endpoint with the translated addresses |

## Left out

- Addresses are IPv4 dotted quads only. IPv6 and IPv4-mapped IPv6 forms count as unparsable, so `IpBelongsToCIDR` errors on IPv6 input where Go accepts it. The two "only IPv4" errors of `RemapAddressUsingCidr` therefore cannot occur in the model.
- Block notations are parsed as an address, a slash and a decimal prefix length of at most 32; the rest of the `net.ParseCIDR` grammar is not modelled.
- Listing the ForeignClusterConnections through the API client is I/O: the record list, or its absence (`None`), is an input.
- The `os.Getenv` read is replaced by `Env.podNamespace`. The package-level `clusterName` is taken as `ClusterNameFromNamespace` of that namespace, inside `EnginePairs`.
- A failed listing or lookup is logged and then ignored by the engine; the model represents it as an empty pair list (`EnginePairs`).
- The node lister, the cluster-ID lookup, the address translator, `RemoteKind` and the IPAM `MapAddress` call are parameters of the model. Their own behaviour is not modelled. `Base.MappingFailed` stands for any error the mapper reports.
- `klog` logging and `context` are not modelled. There is one exception: the reference name that the skip branch of the mapping pass reads for its log line. `Mapping.PassAsWritten` models that read (see Findings).
- `RemoteEndpointSliceObjectMeta`, `RemoteObjectMeta`, `FilterNotReflected` and the label merge are not modelled. `RemoteShadowEndpointSlice` takes the labels they produce as the parameter `metaLabels`.
- `RemoteShadowEndpointSlice`: the `remote == nil` branch and `targetNamespace` are left out. They only name the object, and the result does not carry object names.
- The step that reads the label back on the remote side is not part of this model. `Handoff` assumes it splits the label value at commas.
- `EndpointSlices.Endpoint` has no `DeprecatedTopology` field. The forging never copies it into a forged endpoint, so the forged endpoints lack it, as in the model. The mapping pass rewrites endpoints in place and keeps whatever the field holds; the model does not carry it.
- `EndpointSlices.WithShortcutLabel`: the Kubernetes label-value syntax is not modelled. With two or more shortcut addresses the comma-joined value contains `,`, and a long list can exceed 63 characters. The API server would then likely reject the object. `EndpointSlices.LabelRoundTrip` is about the strings only.
- Nil and empty slices are not told apart.
- `DeepCopy` is value semantics. The local endpoints hold their target reference as a value.
- In the source the address loops of the engine and of the mapping pass sit inline. The model lifts them into helper methods (`EndpointSlices.AddressStep`, `EndpointSlices.ShortcutEndpoints`, `EndpointSlices.ForgeReflectedEndpoint`, `Mapping.MapRow`) with the same effect.
- `Mapping.MapEndpointsWithConfiguration`: an endpoint's address list is a value inside the array element, so aliasing of the backing array of `Addresses` with other slices is not modelled.
- `EndpointSlices.RemoteEndpointSliceEndpoints` and `EndpointSlices.RemoteShadowEndpointSlice` do not restate the sharing of one reference object among the shortcut endpoints of one local endpoint. `EndpointSlices.ForgeReflectedEndpoint` states it.
- The sequence of addresses handed to the mapper is a ghost out-parameter of `Mapping.MapEndpointsWithConfiguration`.
- The code shares one copied `TargetRef` among all shortcut endpoints of a local endpoint and applies `RemoteKind` to it once per shortcut address; the model follows the code (`EndpointSlices.ForgedRef`).
- The `break` at pkg/utils/virtualkubelet/foreignclusterconnections.go:95 leaves the whole loop over the records, and the model does the same. No later record, and not the B side of the matching record, is examined.

## Findings

| source | as written | input that shows it | evidently intended | confidence | as-written member | corrected member |
|---|---|---|---|---|---|---|
| pkg/liqo-controller-manager/offloading/shadowendpointslice-controller/mapping.go:49-50 | the skip branch for a shortcut address evaluates `endpoints[i].TargetRef.Name` for its log line, a nil dereference when the endpoint has no target reference; `Mapping.PassAsWritten` models the pass with that panic, and `Mapping.PassAsWrittenAgrees` shows it differs from the corrected pass only there | an endpoint with address 10.244.0.5, listed in the shortcut addresses, and a nil `TargetRef`; the forging emits such endpoints for every local endpoint without a reference that has a shortcut (`Handoff.ForgedShortcutWithoutReference`) | skip the address without reading the reference, leaving the endpoint unchanged | not executed | Mapping.SkipWithoutReference | Mapping.MapEndpointsWithConfiguration |
