/** The controller pass over a received ShadowEndpointSlice: every address
    of every endpoint is replaced in place by its IPAM translation, except
    the shortcut addresses, which are already usable; the first failing
    translation ends the pass with its error. */
module Mapping {
  import opened Base
  import opened Sequences
  import opened EndpointSlices

  // ---------------------------------------------------------------------------
  // contains
  // ---------------------------------------------------------------------------

  /** `contains`: a linear search for `str`. */
  method Contains(slice: seq<string>, str: string) returns (found: bool)
    ensures found <==> str in slice
  {
    for i := 0 to |slice|
      invariant str !in slice[..i]
    {
      if slice[i] == str {
        return true;
      }
    }
    assert slice[..|slice|] == slice;
    return false;
  }

  // ---------------------------------------------------------------------------
  // The pass, as a function of the endpoints it starts from
  // ---------------------------------------------------------------------------

  /** `ipamips.MapAddress` for a cluster ID and an address: the translated
      address, or the error of the call. */
  type Mapper = (string, string) -> Result<string>

  /** The translation of `a` is attempted and fails. */
  predicate Fails(clusterID: string, a: string, shortcutAddresses: seq<string>, mapAddress: Mapper)
  {
    a !in shortcutAddresses && mapAddress(clusterID, a).Err?
  }

  /** What the pass leaves at a position it visits: the address itself when
      it is a shortcut address or its translation fails (a failing
      translation writes nothing), its translation otherwise. */
  function Mapped(clusterID: string, a: string, shortcutAddresses: seq<string>, mapAddress: Mapper): string
  {
    if a in shortcutAddresses then a
    else match mapAddress(clusterID, a)
      case Ok(v) => v
      case Err(_) => a
  }

  /** The first position of a row whose translation fails, or the length of
      the row when there is none. */
  function RowStop(clusterID: string, addrs: seq<string>, shortcutAddresses: seq<string>, mapAddress: Mapper): (j: nat)
    ensures j <= |addrs|
    ensures forall k :: 0 <= k < j ==> !Fails(clusterID, addrs[k], shortcutAddresses, mapAddress)
    ensures j < |addrs| ==> Fails(clusterID, addrs[j], shortcutAddresses, mapAddress)
  {
    if |addrs| == 0 then 0
    else if Fails(clusterID, addrs[0], shortcutAddresses, mapAddress) then 0
    else 1 + RowStop(clusterID, addrs[1..], shortcutAddresses, mapAddress)
  }

  /** No translation of the endpoint's addresses fails. */
  predicate Clear(clusterID: string, e: LocalEndpoint, shortcutAddresses: seq<string>, mapAddress: Mapper)
  {
    RowStop(clusterID, e.addresses, shortcutAddresses, mapAddress) == |e.addresses|
  }

  /** The error of the endpoint's first failing translation, if any. */
  function RowError(clusterID: string, e: LocalEndpoint, shortcutAddresses: seq<string>, mapAddress: Mapper): (r: Option<Error>)
    ensures r.None? <==> Clear(clusterID, e, shortcutAddresses, mapAddress)
  {
    var s := RowStop(clusterID, e.addresses, shortcutAddresses, mapAddress);
    if s < |e.addresses| then Some(mapAddress(clusterID, e.addresses[s]).error) else None
  }

  /** The first endpoint with a failing position, or the number of
      endpoints when there is none. */
  function StopRow(clusterID: string, eps: seq<LocalEndpoint>, shortcutAddresses: seq<string>, mapAddress: Mapper): (i: nat)
    ensures i <= |eps|
    ensures forall r :: 0 <= r < i ==> Clear(clusterID, eps[r], shortcutAddresses, mapAddress)
    ensures i < |eps| ==> !Clear(clusterID, eps[i], shortcutAddresses, mapAddress)
  {
    if |eps| == 0 then 0
    else if !Clear(clusterID, eps[0], shortcutAddresses, mapAddress) then 0
    else 1 + StopRow(clusterID, eps[1..], shortcutAddresses, mapAddress)
  }

  /** A row whose first `upto` positions have been written, the others as
      they were. */
  function MappedRow(clusterID: string, addrs: seq<string>, shortcutAddresses: seq<string>, mapAddress: Mapper, upto: nat): seq<string>
    requires upto <= |addrs|
  {
    seq(|addrs|, k requires 0 <= k < |addrs| =>
      if k < upto then Mapped(clusterID, addrs[k], shortcutAddresses, mapAddress) else addrs[k])
  }

  /** An endpoint as the pass leaves it once it has visited it: written up
      to its failing position. */
  function Written(clusterID: string, e: LocalEndpoint, shortcutAddresses: seq<string>, mapAddress: Mapper): LocalEndpoint
  {
    e.(addresses := MappedRow(clusterID, e.addresses, shortcutAddresses, mapAddress,
      RowStop(clusterID, e.addresses, shortcutAddresses, mapAddress)))
  }

  /** The endpoints after the pass: every row up to the failing one written,
      everything after it untouched. */
  function MapAll(clusterID: string, eps: seq<LocalEndpoint>, shortcutAddresses: seq<string>, mapAddress: Mapper): seq<LocalEndpoint>
  {
    var stop := StopRow(clusterID, eps, shortcutAddresses, mapAddress);
    seq(|eps|, i requires 0 <= i < |eps| =>
      if i <= stop then Written(clusterID, eps[i], shortcutAddresses, mapAddress) else eps[i])
  }

  /** The error of the pass: that of the failing translation, if any. */
  function MapError(clusterID: string, eps: seq<LocalEndpoint>, shortcutAddresses: seq<string>, mapAddress: Mapper): Option<Error>
  {
    var stop := StopRow(clusterID, eps, shortcutAddresses, mapAddress);
    if stop < |eps| then RowError(clusterID, eps[stop], shortcutAddresses, mapAddress) else None
  }

  function Unlisted(shortcutAddresses: seq<string>): string -> seq<string>
  {
    a => if a in shortcutAddresses then [] else [a]
  }

  /** The translations a row asks for: its addresses that are not shortcut
      addresses, in order, up to and including the failing one. */
  function RowCallsOf(clusterID: string, e: LocalEndpoint, shortcutAddresses: seq<string>, mapAddress: Mapper): seq<string>
  {
    var s := RowStop(clusterID, e.addresses, shortcutAddresses, mapAddress);
    ConcatMap(e.addresses[..if s < |e.addresses| then s + 1 else s], Unlisted(shortcutAddresses))
  }

  function RowCalls(clusterID: string, shortcutAddresses: seq<string>, mapAddress: Mapper): LocalEndpoint -> seq<string>
  {
    e => RowCallsOf(clusterID, e, shortcutAddresses, mapAddress)
  }

  /** The addresses passed to `MapAddress`, in the order of the calls. */
  function Calls(clusterID: string, eps: seq<LocalEndpoint>, shortcutAddresses: seq<string>, mapAddress: Mapper): seq<string>
  {
    var stop := StopRow(clusterID, eps, shortcutAddresses, mapAddress);
    ConcatMap(eps[..if stop < |eps| then stop + 1 else stop], RowCalls(clusterID, shortcutAddresses, mapAddress))
  }

  // ---------------------------------------------------------------------------
  // MapEndpointsWithConfiguration
  // ---------------------------------------------------------------------------

  /** `MapEndpointsWithConfiguration`: overwrites each address that is not a
      shortcut address with its translation, row by row, and returns the
      first error of a translation, leaving the positions after it as they
      were. `calls` records the addresses `MapAddress` was called with. */
  method MapEndpointsWithConfiguration(clusterID: string, endpoints: array<LocalEndpoint>,
                                       shortcutAddresses: seq<string>, mapAddress: Mapper)
    returns (err: Option<Error>, ghost calls: seq<string>)
    modifies endpoints
    ensures endpoints[..] == MapAll(clusterID, old(endpoints[..]), shortcutAddresses, mapAddress)
    ensures err == MapError(clusterID, old(endpoints[..]), shortcutAddresses, mapAddress)
    ensures calls == Calls(clusterID, old(endpoints[..]), shortcutAddresses, mapAddress)
  {
    ghost var eps := endpoints[..];
    ghost var f := RowCalls(clusterID, shortcutAddresses, mapAddress);
    calls := [];
    for i := 0 to endpoints.Length
      invariant forall r :: 0 <= r < i ==> Clear(clusterID, eps[r], shortcutAddresses, mapAddress)
      invariant forall r :: 0 <= r < i ==> endpoints[r] == Written(clusterID, eps[r], shortcutAddresses, mapAddress)
      invariant forall r :: i <= r < endpoints.Length ==> endpoints[r] == eps[r]
      invariant calls == ConcatMap(eps[..i], f)
    {
      ghost var rowCalls;
      err, rowCalls := MapRow(clusterID, endpoints, i, shortcutAddresses, mapAddress);
      ConcatMapStep(eps, i, f);
      calls := calls + rowCalls;
      if err.Some? {
        FailureEnds(clusterID, eps, shortcutAddresses, mapAddress, i, endpoints[..], calls);
        return err, calls;
      }
    }
    SuccessEnds(clusterID, eps, shortcutAddresses, mapAddress, endpoints[..], calls);
    return None, calls;
  }

  /** The inner loop of `MapEndpointsWithConfiguration`, over the addresses
      of endpoint `i`: writes them up to the first failing translation and
      returns its error. */
  method MapRow(clusterID: string, endpoints: array<LocalEndpoint>, i: nat,
                shortcutAddresses: seq<string>, mapAddress: Mapper)
    returns (err: Option<Error>, ghost rowCalls: seq<string>)
    requires i < endpoints.Length
    modifies endpoints
    ensures forall r :: 0 <= r < endpoints.Length && r != i ==> endpoints[r] == old(endpoints[r])
    ensures endpoints[i] == Written(clusterID, old(endpoints[i]), shortcutAddresses, mapAddress)
    ensures rowCalls == RowCallsOf(clusterID, old(endpoints[i]), shortcutAddresses, mapAddress)
    ensures err == RowError(clusterID, old(endpoints[i]), shortcutAddresses, mapAddress)
  {
    ghost var e := endpoints[i];
    ghost var row := e.addresses;
    ghost var g := Unlisted(shortcutAddresses);
    rowCalls := [];
    for j := 0 to |endpoints[i].addresses|
      invariant forall k :: 0 <= k < j ==> !Fails(clusterID, row[k], shortcutAddresses, mapAddress)
      invariant endpoints[i] == e.(addresses := MappedRow(clusterID, row, shortcutAddresses, mapAddress, j))
      invariant forall r :: 0 <= r < endpoints.Length && r != i ==> endpoints[r] == old(endpoints[r])
      invariant rowCalls == ConcatMap(row[..j], g)
    {
      var addr := endpoints[i].addresses[j];
      MappedRowStep(clusterID, row, shortcutAddresses, mapAddress, j);
      ConcatMapStep(row, j, g);
      var skip := Contains(shortcutAddresses, addr);
      if skip {
        continue;
      }
      var rAddr := mapAddress(clusterID, addr);
      rowCalls := rowCalls + [addr];
      if rAddr.Err? {
        assert RowStop(clusterID, row, shortcutAddresses, mapAddress) == j;
        return Some(rAddr.error), rowCalls;
      }
      endpoints[i] := endpoints[i].(addresses := endpoints[i].addresses[j := rAddr.value]);
    }
    assert RowStop(clusterID, row, shortcutAddresses, mapAddress) == |row|;
    assert row[..|row|] == row;
    err := None;
  }

  /** Visiting one more position writes what the pass leaves there. */
  lemma MappedRowStep(clusterID: string, row: seq<string>, shortcutAddresses: seq<string>, mapAddress: Mapper, j: nat)
    requires j < |row|
    ensures MappedRow(clusterID, row, shortcutAddresses, mapAddress, j)[j] == row[j]
    ensures MappedRow(clusterID, row, shortcutAddresses, mapAddress, j + 1) ==
      MappedRow(clusterID, row, shortcutAddresses, mapAddress, j)[j := Mapped(clusterID, row[j], shortcutAddresses, mapAddress)]
  {
  }

  /** The state after the first row with a failing translation, row `i`, is
      the outcome of the pass. */
  lemma FailureEnds(clusterID: string, eps: seq<LocalEndpoint>, shortcutAddresses: seq<string>, mapAddress: Mapper,
                    i: nat, now: seq<LocalEndpoint>, calls: seq<string>)
    requires i < |eps| && |now| == |eps|
    requires !Clear(clusterID, eps[i], shortcutAddresses, mapAddress)
    requires forall r :: 0 <= r < i ==> Clear(clusterID, eps[r], shortcutAddresses, mapAddress)
    requires forall r :: 0 <= r <= i ==> now[r] == Written(clusterID, eps[r], shortcutAddresses, mapAddress)
    requires forall r :: i < r < |eps| ==> now[r] == eps[r]
    requires calls == ConcatMap(eps[..i + 1], RowCalls(clusterID, shortcutAddresses, mapAddress))
    ensures now == MapAll(clusterID, eps, shortcutAddresses, mapAddress)
    ensures MapError(clusterID, eps, shortcutAddresses, mapAddress) == RowError(clusterID, eps[i], shortcutAddresses, mapAddress)
    ensures calls == Calls(clusterID, eps, shortcutAddresses, mapAddress)
  {
    var stop := StopRow(clusterID, eps, shortcutAddresses, mapAddress);
    assert stop == i;
  }

  /** The state after the last row, with no failing translation, is the
      outcome of the pass. */
  lemma SuccessEnds(clusterID: string, eps: seq<LocalEndpoint>, shortcutAddresses: seq<string>, mapAddress: Mapper,
                    now: seq<LocalEndpoint>, calls: seq<string>)
    requires |now| == |eps|
    requires forall r :: 0 <= r < |eps| ==> Clear(clusterID, eps[r], shortcutAddresses, mapAddress)
    requires forall r :: 0 <= r < |eps| ==> now[r] == Written(clusterID, eps[r], shortcutAddresses, mapAddress)
    requires calls == ConcatMap(eps[..|eps|], RowCalls(clusterID, shortcutAddresses, mapAddress))
    ensures now == MapAll(clusterID, eps, shortcutAddresses, mapAddress)
    ensures MapError(clusterID, eps, shortcutAddresses, mapAddress) == None
    ensures calls == Calls(clusterID, eps, shortcutAddresses, mapAddress)
  {
    var stop := StopRow(clusterID, eps, shortcutAddresses, mapAddress);
    assert stop == |eps|;
  }

  // ---------------------------------------------------------------------------
  // Properties of the pass
  // ---------------------------------------------------------------------------

  /** The pass keeps the number of endpoints, the number of addresses of
      each, and every field other than the addresses. */
  lemma MapAllShape(clusterID: string, eps: seq<LocalEndpoint>, shortcutAddresses: seq<string>, mapAddress: Mapper)
    ensures var out := MapAll(clusterID, eps, shortcutAddresses, mapAddress);
      |out| == |eps| &&
      forall i :: 0 <= i < |eps| ==>
        |out[i].addresses| == |eps[i].addresses| && out[i].(addresses := eps[i].addresses) == eps[i]
  {
  }

  /** A shortcut address is left as it is, wherever it appears. */
  lemma ShortcutAddressesUntouched(clusterID: string, eps: seq<LocalEndpoint>, shortcutAddresses: seq<string>, mapAddress: Mapper,
                                   i: nat, j: nat)
    requires i < |eps| && j < |eps[i].addresses| && eps[i].addresses[j] in shortcutAddresses
    ensures MapAll(clusterID, eps, shortcutAddresses, mapAddress)[i].addresses[j] == eps[i].addresses[j]
  {
  }

  /** `MapAddress` is never asked to translate a shortcut address. */
  lemma CallsAvoidShortcuts(clusterID: string, eps: seq<LocalEndpoint>, shortcutAddresses: seq<string>, mapAddress: Mapper)
    ensures forall k :: 0 <= k < |Calls(clusterID, eps, shortcutAddresses, mapAddress)| ==>
      Calls(clusterID, eps, shortcutAddresses, mapAddress)[k] !in shortcutAddresses
  {
    var f := RowCalls(clusterID, shortcutAddresses, mapAddress);
    var stop := StopRow(clusterID, eps, shortcutAddresses, mapAddress);
    var rows := eps[..if stop < |eps| then stop + 1 else stop];
    forall k | 0 <= k < |Calls(clusterID, eps, shortcutAddresses, mapAddress)|
      ensures Calls(clusterID, eps, shortcutAddresses, mapAddress)[k] !in shortcutAddresses
    {
      var r, c := ConcatMapOrigin(rows, f, k);
      var e := rows[r];
      assert f(e) == RowCallsOf(clusterID, e, shortcutAddresses, mapAddress);
      var s := RowStop(clusterID, e.addresses, shortcutAddresses, mapAddress);
      var prefix := e.addresses[..if s < |e.addresses| then s + 1 else s];
      var a, b := ConcatMapOrigin(prefix, Unlisted(shortcutAddresses), c);
    }
  }

  /** Without a failing translation, every address that is not a shortcut
      address is replaced by its translation. */
  lemma SuccessTranslatesAll(clusterID: string, eps: seq<LocalEndpoint>, shortcutAddresses: seq<string>, mapAddress: Mapper,
                             i: nat, j: nat)
    requires MapError(clusterID, eps, shortcutAddresses, mapAddress) == None
    requires i < |eps| && j < |eps[i].addresses| && eps[i].addresses[j] !in shortcutAddresses
    ensures mapAddress(clusterID, eps[i].addresses[j]).Ok?
    ensures MapAll(clusterID, eps, shortcutAddresses, mapAddress)[i].addresses[j] ==
      mapAddress(clusterID, eps[i].addresses[j]).value
  {
  }

  /** There is an error exactly when some translation fails. */
  lemma ErrorIffSomeFailure(clusterID: string, eps: seq<LocalEndpoint>, shortcutAddresses: seq<string>, mapAddress: Mapper)
    ensures MapError(clusterID, eps, shortcutAddresses, mapAddress).Some? <==>
      exists i, j :: 0 <= i < |eps| && 0 <= j < |eps[i].addresses| &&
        Fails(clusterID, eps[i].addresses[j], shortcutAddresses, mapAddress)
  {
    var stop := StopRow(clusterID, eps, shortcutAddresses, mapAddress);
    if stop < |eps| {
      var j := RowStop(clusterID, eps[stop].addresses, shortcutAddresses, mapAddress);
      assert Fails(clusterID, eps[stop].addresses[j], shortcutAddresses, mapAddress);
    }
  }

  /** On an error, the error is that of the first failing position in row
      order; every position before it has been written and every position
      after it is as it was. */
  lemma FailureStopsAtFirst(clusterID: string, eps: seq<LocalEndpoint>, shortcutAddresses: seq<string>, mapAddress: Mapper)
    requires MapError(clusterID, eps, shortcutAddresses, mapAddress).Some?
    ensures var i0 := StopRow(clusterID, eps, shortcutAddresses, mapAddress);
      var j0 := RowStop(clusterID, eps[i0].addresses, shortcutAddresses, mapAddress);
      var out := MapAll(clusterID, eps, shortcutAddresses, mapAddress);
      i0 < |eps| && j0 < |eps[i0].addresses| &&
      Fails(clusterID, eps[i0].addresses[j0], shortcutAddresses, mapAddress) &&
      MapError(clusterID, eps, shortcutAddresses, mapAddress) == Some(mapAddress(clusterID, eps[i0].addresses[j0]).error) &&
      (forall i, j :: 0 <= i < |eps| && 0 <= j < |eps[i].addresses| && (i < i0 || (i == i0 && j < j0)) ==>
        !Fails(clusterID, eps[i].addresses[j], shortcutAddresses, mapAddress) &&
        out[i].addresses[j] == Mapped(clusterID, eps[i].addresses[j], shortcutAddresses, mapAddress)) &&
      (forall i, j :: 0 <= i < |eps| && 0 <= j < |eps[i].addresses| && (i > i0 || (i == i0 && j >= j0)) ==>
        out[i].addresses[j] == eps[i].addresses[j])
  {
  }

  // ---------------------------------------------------------------------------
  // The pass as written, nil reference included
  // ---------------------------------------------------------------------------

  /** The name the skip branch as written logs: it dereferences the
      endpoint's reference, so `None` stands for the nil-pointer panic. */
  function TargetName(ref: Option<ObjectRef>): Option<string>
  {
    match ref
    case Some(r) => Some(r.name)
    case None => None
  }

  /** How the inner loop as written leaves one endpoint: all its addresses
      visited, stopped by a failing translation (with the addresses as they
      are then), or panicked at a position. */
  datatype RowOutcome =
    | RowDone(addresses: seq<string>)
    | RowFailed(addresses: seq<string>, error: Error)
    | RowPanicked(position: nat)

  /** The same outcome with one more position in front of the walked ones. */
  function Behind(a: string, r: RowOutcome): RowOutcome
  {
    match r
    case RowDone(t) => RowDone([a] + t)
    case RowFailed(t, e) => RowFailed([a] + t, e)
    case RowPanicked(p) => RowPanicked(p + 1)
  }

  /** The inner loop as written over the addresses of an endpoint whose
      reference is `ref`: a shortcut address is skipped after the log call
      reads the reference's name, any other address is translated, and the
      first failing translation ends the walk. */
  function WalkRow(clusterID: string, addrs: seq<string>, shortcutAddresses: seq<string>, mapAddress: Mapper,
                   ref: Option<ObjectRef>): RowOutcome
  {
    if |addrs| == 0 then RowDone([])
    else if addrs[0] in shortcutAddresses then
      match TargetName(ref)
      case None => RowPanicked(0)
      case Some(_) => Behind(addrs[0], WalkRow(clusterID, addrs[1..], shortcutAddresses, mapAddress, ref))
    else match mapAddress(clusterID, addrs[0])
      case Err(e) => RowFailed(addrs, e)
      case Ok(v) => Behind(v, WalkRow(clusterID, addrs[1..], shortcutAddresses, mapAddress, ref))
  }

  /** How the pass as written ends: it returns the endpoints and its error,
      or it panics at a row and a position. */
  datatype Outcome =
    | Returned(endpoints: seq<LocalEndpoint>, err: Option<Error>)
    | Panicked(row: nat, position: nat)

  /** `MapEndpointsWithConfiguration` as written, row after row. */
  function PassAsWritten(clusterID: string, eps: seq<LocalEndpoint>, shortcutAddresses: seq<string>, mapAddress: Mapper): Outcome
  {
    if |eps| == 0 then Returned([], None)
    else match WalkRow(clusterID, eps[0].addresses, shortcutAddresses, mapAddress, eps[0].targetRef)
      case RowPanicked(p) => Panicked(0, p)
      case RowFailed(t, e) => Returned([eps[0].(addresses := t)] + eps[1..], Some(e))
      case RowDone(t) =>
        match PassAsWritten(clusterID, eps[1..], shortcutAddresses, mapAddress)
        case Returned(rest, err) => Returned([eps[0].(addresses := t)] + rest, err)
        case Panicked(r, p) => Panicked(r + 1, p)
  }

  /** Position `j` of row `i` is a shortcut address of an endpoint without a
      reference that the pass reaches before its first failing translation. */
  predicate ReachesNilSkip(clusterID: string, eps: seq<LocalEndpoint>, shortcutAddresses: seq<string>, mapAddress: Mapper,
                           i: nat, j: nat)
  {
    i < |eps| && i <= StopRow(clusterID, eps, shortcutAddresses, mapAddress) &&
    j < RowStop(clusterID, eps[i].addresses, shortcutAddresses, mapAddress) &&
    eps[i].addresses[j] in shortcutAddresses && eps[i].targetRef.None?
  }

  /** A row with its first position written. */
  lemma MappedRowCons(clusterID: string, addrs: seq<string>, shortcutAddresses: seq<string>, mapAddress: Mapper, upto: nat)
    requires 0 < upto <= |addrs|
    ensures MappedRow(clusterID, addrs, shortcutAddresses, mapAddress, upto) ==
      [Mapped(clusterID, addrs[0], shortcutAddresses, mapAddress)] + MappedRow(clusterID, addrs[1..], shortcutAddresses, mapAddress, upto - 1)
  {
  }

  /** The walk over one row as written: it panics exactly when a shortcut
      address of an endpoint without a reference comes before the row's
      failing position, at the first such address; otherwise it writes the
      row as `Written` does and fails exactly when `RowError` says so. */
  lemma {:induction false} WalkRowAgrees(clusterID: string, addrs: seq<string>, shortcutAddresses: seq<string>, mapAddress: Mapper,
                                         ref: Option<ObjectRef>)
    ensures var w, s := WalkRow(clusterID, addrs, shortcutAddresses, mapAddress, ref), RowStop(clusterID, addrs, shortcutAddresses, mapAddress);
      (w.RowPanicked? <==> ref.None? && exists k :: 0 <= k < s && addrs[k] in shortcutAddresses) &&
      (w.RowPanicked? ==> (w.position < s && addrs[w.position] in shortcutAddresses &&
        forall k :: 0 <= k < w.position ==> addrs[k] !in shortcutAddresses)) &&
      (w.RowDone? ==> s == |addrs| && w.addresses == MappedRow(clusterID, addrs, shortcutAddresses, mapAddress, s)) &&
      (w.RowFailed? ==> (s < |addrs| && w.addresses == MappedRow(clusterID, addrs, shortcutAddresses, mapAddress, s) &&
        w.error == mapAddress(clusterID, addrs[s]).error))
  {
    if |addrs| > 0 {
      var tail := addrs[1..];
      WalkRowAgrees(clusterID, tail, shortcutAddresses, mapAddress, ref);
      var s := RowStop(clusterID, addrs, shortcutAddresses, mapAddress);
      if Fails(clusterID, addrs[0], shortcutAddresses, mapAddress) {
        assert s == 0;
        assert MappedRow(clusterID, addrs, shortcutAddresses, mapAddress, 0) == addrs;
      } else {
        MappedRowCons(clusterID, addrs, shortcutAddresses, mapAddress, s);
        forall k | 0 < k < s ensures addrs[k] == tail[k - 1] { }
      }
    }
  }

  /** What `PassAsWrittenAgrees` states of `eps`. */
  ghost predicate Agrees(clusterID: string, eps: seq<LocalEndpoint>, shortcutAddresses: seq<string>, mapAddress: Mapper)
  {
    var w := PassAsWritten(clusterID, eps, shortcutAddresses, mapAddress);
    (w.Returned? <==> forall i: nat, j: nat :: !ReachesNilSkip(clusterID, eps, shortcutAddresses, mapAddress, i, j)) &&
    (w.Returned? ==> (w.endpoints == MapAll(clusterID, eps, shortcutAddresses, mapAddress) &&
      w.err == MapError(clusterID, eps, shortcutAddresses, mapAddress))) &&
    (w.Panicked? ==> (ReachesNilSkip(clusterID, eps, shortcutAddresses, mapAddress, w.row, w.position) &&
      (forall i: nat, j: nat :: i < w.row ==> !ReachesNilSkip(clusterID, eps, shortcutAddresses, mapAddress, i, j)) &&
      forall j: nat :: j < w.position ==> !ReachesNilSkip(clusterID, eps, shortcutAddresses, mapAddress, w.row, j)))
  }

  /** The pass as written panics exactly when it reaches a shortcut address
      of an endpoint without a reference, at the first one in row order;
      otherwise it returns what the pass modelled by `MapAll` and `MapError`
      returns, so the two differ only by that panic. */
  lemma {:induction false} PassAsWrittenAgrees(clusterID: string, eps: seq<LocalEndpoint>, shortcutAddresses: seq<string>, mapAddress: Mapper)
    ensures var w := PassAsWritten(clusterID, eps, shortcutAddresses, mapAddress);
      (w.Returned? <==> forall i: nat, j: nat :: !ReachesNilSkip(clusterID, eps, shortcutAddresses, mapAddress, i, j)) &&
      (w.Returned? ==> (w.endpoints == MapAll(clusterID, eps, shortcutAddresses, mapAddress) &&
        w.err == MapError(clusterID, eps, shortcutAddresses, mapAddress))) &&
      (w.Panicked? ==> (ReachesNilSkip(clusterID, eps, shortcutAddresses, mapAddress, w.row, w.position) &&
        (forall i: nat, j: nat :: i < w.row ==> !ReachesNilSkip(clusterID, eps, shortcutAddresses, mapAddress, i, j)) &&
        forall j: nat :: j < w.position ==> !ReachesNilSkip(clusterID, eps, shortcutAddresses, mapAddress, w.row, j)))
  {
    if |eps| == 0 {
      assert Agrees(clusterID, eps, shortcutAddresses, mapAddress);
    } else {
      var e := eps[0];
      WalkRowAgrees(clusterID, e.addresses, shortcutAddresses, mapAddress, e.targetRef);
      var w := WalkRow(clusterID, e.addresses, shortcutAddresses, mapAddress, e.targetRef);
      if w.RowPanicked? {
        PanicsInFirstRow(clusterID, eps, shortcutAddresses, mapAddress);
      } else if w.RowFailed? {
        FailsInFirstRow(clusterID, eps, shortcutAddresses, mapAddress);
      } else {
        PassAsWrittenAgrees(clusterID, eps[1..], shortcutAddresses, mapAddress);
        assert Agrees(clusterID, eps[1..], shortcutAddresses, mapAddress);
        DoneWithFirstRow(clusterID, eps, shortcutAddresses, mapAddress);
      }
      assert Agrees(clusterID, eps, shortcutAddresses, mapAddress);
    }
  }

  lemma PanicsInFirstRow(clusterID: string, eps: seq<LocalEndpoint>, shortcutAddresses: seq<string>, mapAddress: Mapper)
    requires |eps| > 0 && WalkRow(clusterID, eps[0].addresses, shortcutAddresses, mapAddress, eps[0].targetRef).RowPanicked?
    ensures Agrees(clusterID, eps, shortcutAddresses, mapAddress)
  {
    var e := eps[0];
    WalkRowAgrees(clusterID, e.addresses, shortcutAddresses, mapAddress, e.targetRef);
    var w := WalkRow(clusterID, e.addresses, shortcutAddresses, mapAddress, e.targetRef);
    assert PassAsWritten(clusterID, eps, shortcutAddresses, mapAddress) == Panicked(0, w.position);
    assert ReachesNilSkip(clusterID, eps, shortcutAddresses, mapAddress, 0, w.position);
  }

  lemma FailsInFirstRow(clusterID: string, eps: seq<LocalEndpoint>, shortcutAddresses: seq<string>, mapAddress: Mapper)
    requires |eps| > 0 && WalkRow(clusterID, eps[0].addresses, shortcutAddresses, mapAddress, eps[0].targetRef).RowFailed?
    ensures Agrees(clusterID, eps, shortcutAddresses, mapAddress)
  {
    var e := eps[0];
    WalkRowAgrees(clusterID, e.addresses, shortcutAddresses, mapAddress, e.targetRef);
    assert StopRow(clusterID, eps, shortcutAddresses, mapAddress) == 0;
    forall i: nat, j: nat ensures !ReachesNilSkip(clusterID, eps, shortcutAddresses, mapAddress, i, j) { }
    assert MapAll(clusterID, eps, shortcutAddresses, mapAddress) ==
      [Written(clusterID, e, shortcutAddresses, mapAddress)] + eps[1..];
  }

  /** Past a first row that the walk finishes, the rows of `eps` after the
      first are the rows of `eps[1..]`. */
  lemma ReachesShift(clusterID: string, eps: seq<LocalEndpoint>, shortcutAddresses: seq<string>, mapAddress: Mapper, i: nat, j: nat)
    requires |eps| > 0 && Clear(clusterID, eps[0], shortcutAddresses, mapAddress)
    ensures ReachesNilSkip(clusterID, eps, shortcutAddresses, mapAddress, i + 1, j) <==>
      ReachesNilSkip(clusterID, eps[1..], shortcutAddresses, mapAddress, i, j)
  {
    if i + 1 < |eps| { assert eps[i + 1] == eps[1..][i]; }
  }

  lemma DoneWithFirstRow(clusterID: string, eps: seq<LocalEndpoint>, shortcutAddresses: seq<string>, mapAddress: Mapper)
    requires |eps| > 0 && WalkRow(clusterID, eps[0].addresses, shortcutAddresses, mapAddress, eps[0].targetRef).RowDone?
    requires Agrees(clusterID, eps[1..], shortcutAddresses, mapAddress)
    ensures Agrees(clusterID, eps, shortcutAddresses, mapAddress)
  {
    var e, rest := eps[0], eps[1..];
    WalkRowAgrees(clusterID, e.addresses, shortcutAddresses, mapAddress, e.targetRef);
    var w := WalkRow(clusterID, e.addresses, shortcutAddresses, mapAddress, e.targetRef);
    assert Clear(clusterID, e, shortcutAddresses, mapAddress);
    assert e.(addresses := w.addresses) == Written(clusterID, e, shortcutAddresses, mapAddress);
    forall j: nat ensures !ReachesNilSkip(clusterID, eps, shortcutAddresses, mapAddress, 0, j) { }
    var wr := PassAsWritten(clusterID, rest, shortcutAddresses, mapAddress);
    if wr.Returned? {
      PassStep(clusterID, eps, shortcutAddresses, mapAddress);
      forall i: nat, j: nat ensures !ReachesNilSkip(clusterID, eps, shortcutAddresses, mapAddress, i, j) {
        if i > 0 { ReachesShift(clusterID, eps, shortcutAddresses, mapAddress, i - 1, j); }
      }
    } else {
      ReachesShift(clusterID, eps, shortcutAddresses, mapAddress, wr.row, wr.position);
      forall i: nat, j: nat | i < wr.row + 1 ensures !ReachesNilSkip(clusterID, eps, shortcutAddresses, mapAddress, i, j) {
        if i > 0 { ReachesShift(clusterID, eps, shortcutAddresses, mapAddress, i - 1, j); }
      }
      var row: nat := wr.row + 1;
      forall j: nat | j < wr.position ensures !ReachesNilSkip(clusterID, eps, shortcutAddresses, mapAddress, row, j) {
        ReachesShift(clusterID, eps, shortcutAddresses, mapAddress, wr.row, j);
      }
    }
  }

  /** Past a row without a failing translation, the pass goes on with the
      rest of the rows. */
  lemma PassStep(clusterID: string, eps: seq<LocalEndpoint>, shortcutAddresses: seq<string>, mapAddress: Mapper)
    requires 0 < |eps| && Clear(clusterID, eps[0], shortcutAddresses, mapAddress)
    ensures MapAll(clusterID, eps, shortcutAddresses, mapAddress) ==
      [Written(clusterID, eps[0], shortcutAddresses, mapAddress)] + MapAll(clusterID, eps[1..], shortcutAddresses, mapAddress)
    ensures MapError(clusterID, eps, shortcutAddresses, mapAddress) == MapError(clusterID, eps[1..], shortcutAddresses, mapAddress)
  {
    var rest := eps[1..];
    assert StopRow(clusterID, eps, shortcutAddresses, mapAddress) == 1 + StopRow(clusterID, rest, shortcutAddresses, mapAddress);
    var lhs := MapAll(clusterID, eps, shortcutAddresses, mapAddress);
    var rhs := [Written(clusterID, eps[0], shortcutAddresses, mapAddress)] + MapAll(clusterID, rest, shortcutAddresses, mapAddress);
    forall i | 0 < i < |eps| ensures lhs[i] == rhs[i] {
      assert eps[i] == rest[i - 1];
    }
  }

  /** An endpoint without a reference whose address is a shortcut address:
      the pass as written panics on it, while the pass modelled by
      `MapAll`, which never reads the reference, leaves it as it is and
      reports no error. */
  lemma SkipWithoutReference(clusterID: string, mapAddress: Mapper)
    ensures var e: LocalEndpoint := Endpoint(["10.244.0.5"], Conditions(Some(true), None, None), None, None, Some("local"), None, None);
      var sc := ["10.244.0.5"];
      PassAsWritten(clusterID, [e], sc, mapAddress) == Panicked(0, 0) &&
      MapAll(clusterID, [e], sc, mapAddress) == [e] && MapError(clusterID, [e], sc, mapAddress) == None
  {
    var e: LocalEndpoint := Endpoint(["10.244.0.5"], Conditions(Some(true), None, None), None, None, Some("local"), None, None);
    var sc := ["10.244.0.5"];
    assert e.addresses[0] in sc;
    assert RowStop(clusterID, e.addresses, sc, mapAddress) == 1;
    assert MappedRow(clusterID, e.addresses, sc, mapAddress, 1) == e.addresses;
  }
}
