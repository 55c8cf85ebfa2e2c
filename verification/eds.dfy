/** Synthesis of endpoint assignments from EndpointSlices. */
module Eds {
  import opened Options
  import opened Mesh

  datatype LbEndpoint = LbEndpoint(address: string, port: int, weight: int)

  /** A ClusterLoadAssignment: at most one locality, which is then not empty. */
  datatype Assignment = Assignment(clusterName: string, localities: seq<seq<LbEndpoint>>)

  const UINT32_LIMIT := 0x1_0000_0000

  /** The conversion `uint32(p)` of an int32. */
  function ToUint32(p: int): int {
    if p < 0 then p + UINT32_LIMIT else p
  }

  /** The first usable port: any if none is wanted, else one equal to the wanted port. */
  function ResolvedPort(ports: seq<Option<int>>, want: Option<int>): int {
    if ports == [] then 0
    else if ports[0].Some? && (want.None? || ports[0].value == want.value) then ports[0].value
    else ResolvedPort(ports[1..], want)
  }

  method ResolvePort(ports: seq<Option<int>>, want: Option<int>) returns (p: int)
    ensures p == ResolvedPort(ports, want)
  {
    for i := 0 to |ports|
      invariant ResolvedPort(ports, want) == ResolvedPort(ports[i..], want)
    {
      assert ports[i..][1..] == ports[i + 1..];
      if ports[i].None? {
        continue;
      }
      if want.None? {
        return ports[i].value;
      }
      if ports[i].value == want.value {
        return ports[i].value;
      }
    }
    return 0;
  }

  /** A wanted port is the resolved one exactly when the slice offers it; otherwise there is none. */
  lemma {:induction false} WantedPort(ports: seq<Option<int>>, want: int)
    ensures Some(want) in ports ==> ResolvedPort(ports, Some(want)) == want
    ensures Some(want) !in ports ==> ResolvedPort(ports, Some(want)) == 0
  {
    if ports != [] {
      WantedPort(ports[1..], want);
      assert ports == [ports[0]] + ports[1..];
    }
  }

  /** If no port is wanted, the first port that is set is the resolved one, even if it is zero. */
  lemma {:induction false} AnyPort(ports: seq<Option<int>>, i: nat)
    requires i <= |ports| && forall j | 0 <= j < i :: ports[j].None?
    ensures i < |ports| && ports[i].Some? ==> ResolvedPort(ports, None) == ports[i].value
    ensures i == |ports| ==> ResolvedPort(ports, None) == 0
    decreases i
  {
    if i > 0 {
      AnyPort(ports[1..], i - 1);
    }
  }

  predicate Ready(e: Endpoint) {
    e.ready != Some(false)
  }

  // ----- The flat comprehension -----

  function FromAddresses(addresses: seq<string>, port: int): seq<LbEndpoint> {
    if addresses == [] then []
    else
      var a := addresses[|addresses| - 1];
      FromAddresses(addresses[..|addresses| - 1], port) + if a != "" then [LbEndpoint(a, ToUint32(port), 1)] else []
  }

  function FromEndpoints(endpoints: seq<Endpoint>, port: int): seq<LbEndpoint> {
    if endpoints == [] then []
    else
      var e := endpoints[|endpoints| - 1];
      FromEndpoints(endpoints[..|endpoints| - 1], port) + if Ready(e) then FromAddresses(e.addresses, port) else []
  }

  function FromSlice(s: Slice, want: Option<int>): seq<LbEndpoint> {
    var port := ResolvedPort(s.ports, want);
    if port == 0 then [] else FromEndpoints(s.endpoints, port)
  }

  function FromSlices(slices: seq<Slice>, want: Option<int>): seq<LbEndpoint> {
    if slices == [] then []
    else FromSlices(slices[..|slices| - 1], want) + FromSlice(slices[|slices| - 1], want)
  }

  function Synthesized(clusterName: string, slices: seq<Slice>, want: Option<int>): Assignment {
    var endpoints := FromSlices(slices, want);
    Assignment(clusterName, if |endpoints| > 0 then [endpoints] else [])
  }

  /** The outer loop of `SynthesizeCLA`. */
  method SynthesizeCLA(clusterName: string, slices: seq<Slice>, want: Option<int>) returns (cla: Assignment)
    ensures cla == Synthesized(clusterName, slices, want)
    ensures Synthesis(cla, clusterName, slices, want)
  {
    SynthesizedIsSynthesis(clusterName, slices, want);
    var lb: seq<LbEndpoint> := [];
    for i := 0 to |slices|
      invariant lb == FromSlices(slices[..i], want)
    {
      assert slices[..i + 1][..i] == slices[..i];
      var port := ResolvePort(slices[i].ports, want);
      if port == 0 {
        continue;
      }
      var more := EndpointsOn(slices[i].endpoints, port);
      lb := lb + more;
    }
    assert slices[..|slices|] == slices;
    cla := Assignment(clusterName, if |lb| > 0 then [lb] else []);
  }

  /** The two inner loops. */
  method EndpointsOn(endpoints: seq<Endpoint>, port: int) returns (lb: seq<LbEndpoint>)
    ensures lb == FromEndpoints(endpoints, port)
  {
    lb := [];
    for j := 0 to |endpoints|
      invariant lb == FromEndpoints(endpoints[..j], port)
    {
      assert endpoints[..j + 1][..j] == endpoints[..j];
      if !Ready(endpoints[j]) {
        continue;
      }
      var addresses := endpoints[j].addresses;
      for k := 0 to |addresses|
        invariant lb == FromEndpoints(endpoints[..j], port) + FromAddresses(addresses[..k], port)
      {
        assert addresses[..k + 1][..k] == addresses[..k];
        if addresses[k] == "" {
          continue;
        }
        lb := lb + [LbEndpoint(addresses[k], ToUint32(port), 1)];
      }
      assert addresses[..|addresses|] == addresses;
    }
    assert endpoints[..|endpoints|] == endpoints;
  }

  // ----- What the comprehension yields, position by position -----

  /** An address within the slice list. */
  datatype Position = Position(slice: nat, endpoint: nat, address: nat)

  predicate Eligible(slices: seq<Slice>, want: Option<int>, p: Position) {
    && p.slice < |slices| && ResolvedPort(slices[p.slice].ports, want) != 0
    && p.endpoint < |slices[p.slice].endpoints| && slices[p.slice].endpoints[p.endpoint].ready != Some(false)
    && p.address < |slices[p.slice].endpoints[p.endpoint].addresses|
    && slices[p.slice].endpoints[p.endpoint].addresses[p.address] != ""
  }

  /** The endpoint of a position: its address on the slice's port, with weight 1; a negative port wraps around. */
  function At(slices: seq<Slice>, want: Option<int>, p: Position): LbEndpoint
    requires Eligible(slices, want, p)
  {
    var port := ResolvedPort(slices[p.slice].ports, want);
    LbEndpoint(slices[p.slice].endpoints[p.endpoint].addresses[p.address],
               if port > 0 then port else port + 0x1_0000_0000, 1)
  }

  predicate Before(p: Position, q: Position) {
    || p.slice < q.slice
    || (p.slice == q.slice && (p.endpoint < q.endpoint || (p.endpoint == q.endpoint && p.address < q.address)))
  }

  /** `ps` lists eligible positions in order, and `lb` has the endpoint of each. */
  ghost predicate Lists(slices: seq<Slice>, want: Option<int>, ps: seq<Position>, lb: seq<LbEndpoint>) {
    && |ps| == |lb|
    && (forall n | 0 <= n < |ps| :: Eligible(slices, want, ps[n]) && lb[n] == At(slices, want, ps[n]))
    && (forall m, n | 0 <= m < n < |ps| :: Before(ps[m], ps[n]))
  }

  lemma ListsAppend(slices: seq<Slice>, want: Option<int>, ps: seq<Position>, lb: seq<LbEndpoint>, qs: seq<Position>,
                    mb: seq<LbEndpoint>)
    requires Lists(slices, want, ps, lb) && Lists(slices, want, qs, mb)
    requires forall p, q :: p in ps && q in qs ==> Before(p, q)
    ensures Lists(slices, want, ps + qs, lb + mb)
  {
    forall m, n | 0 <= m < n < |ps + qs| ensures Before((ps + qs)[m], (ps + qs)[n]) {
      if m < |ps| <= n {
        assert ps[m] in ps && qs[n - |ps|] in qs;
      }
    }
  }

  function AddressPositions(s: nat, e: nat, addresses: seq<string>): seq<Position> {
    if addresses == [] then []
    else
      var k := |addresses| - 1;
      AddressPositions(s, e, addresses[..k]) + if addresses[k] != "" then [Position(s, e, k)] else []
  }

  function EndpointPositions(s: nat, endpoints: seq<Endpoint>): seq<Position> {
    if endpoints == [] then []
    else
      var e := |endpoints| - 1;
      EndpointPositions(s, endpoints[..e])
      + if Ready(endpoints[e]) then AddressPositions(s, e, endpoints[e].addresses) else []
  }

  function SlicePositions(slices: seq<Slice>, want: Option<int>): seq<Position> {
    if slices == [] then []
    else
      var s := |slices| - 1;
      SlicePositions(slices[..s], want)
      + if ResolvedPort(slices[s].ports, want) != 0 then EndpointPositions(s, slices[s].endpoints) else []
  }

  lemma {:induction false} AddressPositionsHold(s: nat, e: nat, addresses: seq<string>, p: Position)
    ensures p in AddressPositions(s, e, addresses)
            <==> p.slice == s && p.endpoint == e && p.address < |addresses| && addresses[p.address] != ""
  {
    if addresses != [] {
      AddressPositionsHold(s, e, addresses[..|addresses| - 1], p);
    }
  }

  lemma {:induction false} AddressesListed(slices: seq<Slice>, want: Option<int>, s: nat, e: nat, k: nat)
    requires s < |slices| && ResolvedPort(slices[s].ports, want) != 0
    requires e < |slices[s].endpoints| && Ready(slices[s].endpoints[e]) && k <= |slices[s].endpoints[e].addresses|
    ensures var addresses := slices[s].endpoints[e].addresses[..k];
            Lists(slices, want, AddressPositions(s, e, addresses),
                  FromAddresses(addresses, ResolvedPort(slices[s].ports, want)))
  {
    var addresses, port := slices[s].endpoints[e].addresses, ResolvedPort(slices[s].ports, want);
    if k > 0 {
      AddressesListed(slices, want, s, e, k - 1);
      assert addresses[..k][..k - 1] == addresses[..k - 1];
      var ps, lb := AddressPositions(s, e, addresses[..k - 1]), FromAddresses(addresses[..k - 1], port);
      if addresses[k - 1] != "" {
        var p := Position(s, e, k - 1);
        forall q | q in ps ensures Before(q, p) {
          AddressPositionsHold(s, e, addresses[..k - 1], q);
        }
        ListsAppend(slices, want, ps, lb, [p], [At(slices, want, p)]);
      }
    }
  }

  lemma {:induction false} EndpointsListed(slices: seq<Slice>, want: Option<int>, s: nat, e: nat)
    requires s < |slices| && ResolvedPort(slices[s].ports, want) != 0 && e <= |slices[s].endpoints|
    ensures var ps := EndpointPositions(s, slices[s].endpoints[..e]);
            && Lists(slices, want, ps, FromEndpoints(slices[s].endpoints[..e], ResolvedPort(slices[s].ports, want)))
            && (forall p :: p in ps <==> Eligible(slices, want, p) && p.slice == s && p.endpoint < e)
  {
    var endpoints, port := slices[s].endpoints, ResolvedPort(slices[s].ports, want);
    if e > 0 {
      EndpointsListed(slices, want, s, e - 1);
      assert endpoints[..e][..e - 1] == endpoints[..e - 1];
      if Ready(endpoints[e - 1]) {
        var addresses := endpoints[e - 1].addresses;
        AddressesListed(slices, want, s, e - 1, |addresses|);
        assert addresses[..|addresses|] == addresses;
        forall p
          ensures p in AddressPositions(s, e - 1, addresses)
             <==> Eligible(slices, want, p) && p.slice == s && p.endpoint == e - 1
        {
          AddressPositionsHold(s, e - 1, addresses, p);
        }
        ListsAppend(slices, want, EndpointPositions(s, endpoints[..e - 1]), FromEndpoints(endpoints[..e - 1], port),
                    AddressPositions(s, e - 1, addresses), FromAddresses(addresses, port));
      }
    }
  }

  /** `lb` has, in order, exactly one endpoint for each eligible position among the first `n` slices. */
  ghost predicate Enumerates(slices: seq<Slice>, want: Option<int>, n: nat, ps: seq<Position>, lb: seq<LbEndpoint>) {
    && Lists(slices, want, ps, lb)
    && (forall p :: p in ps <==> Eligible(slices, want, p) && p.slice < n)
  }

  lemma {:induction false} SlicesListed(slices: seq<Slice>, want: Option<int>, n: nat)
    requires n <= |slices|
    ensures Enumerates(slices, want, n, SlicePositions(slices[..n], want), FromSlices(slices[..n], want))
  {
    if n > 0 {
      SlicesListed(slices, want, n - 1);
      assert slices[..n][..n - 1] == slices[..n - 1];
      OneMoreSlice(slices, want, n, SlicePositions(slices[..n - 1], want), FromSlices(slices[..n - 1], want));
    }
  }

  lemma OneMoreSlice(slices: seq<Slice>, want: Option<int>, n: nat, ps: seq<Position>, lb: seq<LbEndpoint>)
    requires 0 < n <= |slices| && Enumerates(slices, want, n - 1, ps, lb)
    ensures var last, ported := slices[n - 1], ResolvedPort(slices[n - 1].ports, want) != 0;
            Enumerates(slices, want, n, ps + if ported then EndpointPositions(n - 1, last.endpoints) else [],
                       lb + FromSlice(last, want))
  {
    var last := slices[n - 1];
    if ResolvedPort(last.ports, want) != 0 {
      EndpointsListed(slices, want, n - 1, |last.endpoints|);
      assert last.endpoints[..|last.endpoints|] == last.endpoints;
      ListsAppend(slices, want, ps, lb, EndpointPositions(n - 1, last.endpoints), FromSlice(last, want));
    } else {
      assert ps + [] == ps && lb + [] == lb;
    }
  }

  /**
   * The synthesised endpoints are, in order, exactly one weight-1 endpoint for each non-empty
   * address of a ready endpoint in a slice with a port; with a wanted port, each is on that port.
   */
  lemma {:induction false} SynthesisIsComprehension(slices: seq<Slice>, want: Option<int>)
    ensures exists ps :: Enumerates(slices, want, |slices|, ps, FromSlices(slices, want))
    ensures want.Some? ==> forall e <- FromSlices(slices, want) :: want.value > 0 ==> e.port == want.value
    ensures forall e <- FromSlices(slices, want) :: e.weight == 1 && e.address != ""
  {
    SlicesListed(slices, want, |slices|);
    assert slices[..|slices|] == slices;
    var ps, lb := SlicePositions(slices, want), FromSlices(slices, want);
    assert Enumerates(slices, want, |slices|, ps, lb);
    forall n | 0 <= n < |lb|
      ensures lb[n].weight == 1 && lb[n].address != ""
      ensures want.Some? && want.value > 0 ==> lb[n].port == want.value
    {
      assert lb[n] == At(slices, want, ps[n]);
      if want.Some? {
        WantedPort(slices[ps[n].slice].ports, want.value);
      }
    }
  }

  /**
   * The assignment has the cluster's name and all the endpoints, in order, in one locality; if there are
   * none it has no locality.
   */
  ghost predicate Synthesis(cla: Assignment, clusterName: string, slices: seq<Slice>, want: Option<int>) {
    && cla.clusterName == clusterName
    && |cla.localities| <= 1 && (forall l <- cla.localities :: l != [])
    && exists ps :: Enumerates(slices, want, |slices|, ps, AllEndpoints(cla.localities))
  }

  /** The endpoints of all localities put end to end. */
  function AllEndpoints(localities: seq<seq<LbEndpoint>>): seq<LbEndpoint> {
    if localities == [] then [] else localities[0] + AllEndpoints(localities[1..])
  }

  lemma {:induction false} SynthesizedIsSynthesis(clusterName: string, slices: seq<Slice>, want: Option<int>)
    ensures Synthesis(Synthesized(clusterName, slices, want), clusterName, slices, want)
  {
    SynthesisIsComprehension(slices, want);
    var lb, cla := FromSlices(slices, want), Synthesized(clusterName, slices, want);
    assert [lb][1..] == [] && lb + [] == lb;
    assert AllEndpoints([lb]) == lb + AllEndpoints([lb][1..]);
    assert AllEndpoints(cla.localities) == lb;
  }

  /** The description determines the assignment. */
  lemma {:induction false} SynthesisUnique(a: Assignment, b: Assignment, clusterName: string, slices: seq<Slice>,
                                           want: Option<int>)
    requires Synthesis(a, clusterName, slices, want) && Synthesis(b, clusterName, slices, want)
    ensures a == b
  {
    var ps :| Enumerates(slices, want, |slices|, ps, AllEndpoints(a.localities));
    var qs :| Enumerates(slices, want, |slices|, qs, AllEndpoints(b.localities));
    OrderedUnique(ps, qs);
    assert AllEndpoints(a.localities) == AllEndpoints(b.localities);
    LoneLocality(a.localities);
    LoneLocality(b.localities);
  }

  lemma LoneLocality(localities: seq<seq<LbEndpoint>>)
    requires |localities| <= 1 && forall l <- localities :: l != []
    ensures localities == if AllEndpoints(localities) == [] then [] else [AllEndpoints(localities)]
  {
    if |localities| == 1 {
      assert localities[0] in localities && localities[1..] == [];
      assert AllEndpoints(localities) == localities[0];
    }
  }

  ghost predicate Ordered(ps: seq<Position>) {
    forall m, n | 0 <= m < n < |ps| :: Before(ps[m], ps[n])
  }

  lemma {:induction false} OrderedUnique(ps: seq<Position>, qs: seq<Position>)
    requires Ordered(ps) && Ordered(qs) && forall p :: p in ps <==> p in qs
    ensures ps == qs
  {
    if ps != [] && qs != [] {
      var m, n := |ps| - 1, |qs| - 1;
      LastComesLast(ps, qs[n]);
      LastComesLast(qs, ps[m]);
      forall p ensures p in ps[..m] <==> p in qs[..n] {
        InOrderedInit(ps, p);
        InOrderedInit(qs, p);
      }
      OrderedUnique(ps[..m], qs[..n]);
      assert ps == ps[..m] + [ps[m]] && qs == qs[..n] + [qs[n]];
    } else {
      FirstPosition(ps);
      FirstPosition(qs);
    }
  }

  lemma FirstPosition(ps: seq<Position>)
    ensures ps != [] ==> ps[0] in ps
  {
  }

  lemma LastComesLast(ps: seq<Position>, p: Position)
    requires ps != [] && Ordered(ps) && p in ps
    ensures p == ps[|ps| - 1] || Before(p, ps[|ps| - 1])
    ensures ps[|ps| - 1] in ps
  {
  }

  lemma InOrderedInit(ps: seq<Position>, p: Position)
    requires ps != [] && Ordered(ps)
    ensures p in ps[..|ps| - 1] <==> p in ps && p != ps[|ps| - 1]
  {
  }

  lemma {:induction false} SynthesisDistributes(a: seq<Slice>, b: seq<Slice>, want: Option<int>)
    ensures FromSlices(a + b, want) == FromSlices(a, want) + FromSlices(b, want)
  {
    if b == [] {
      assert a + b == a;
    } else {
      var init, last := b[..|b| - 1], FromSlice(b[|b| - 1], want);
      SynthesisDistributes(a, init, want);
      assert (a + b)[..|a + b| - 1] == a + init && (a + b)[|a + b| - 1] == b[|b| - 1];
      assert FromSlices(a + b, want) == FromSlices(a + init, want) + last;
    }
  }

  function TotalWeight(lb: seq<LbEndpoint>): int {
    if lb == [] then 0 else TotalWeight(lb[..|lb| - 1]) + lb[|lb| - 1].weight
  }

  lemma {:induction false} UnitWeights(lb: seq<LbEndpoint>)
    requires forall n | 0 <= n < |lb| :: lb[n].weight == 1
    ensures TotalWeight(lb) == |lb|
  {
    if lb != [] {
      UnitWeights(lb[..|lb| - 1]);
    }
  }

  lemma TotalWeightIsCount(slices: seq<Slice>, want: Option<int>)
    ensures TotalWeight(FromSlices(slices, want)) == |FromSlices(slices, want)|
  {
    SynthesisIsComprehension(slices, want);
    UnitWeights(FromSlices(slices, want));
  }
}
