/** Collection of everything that targets one proxy, and the snapshot and version built from it. */
module Collect {
  import opened Options
  import opened Mesh
  import opened Eds
  import opened Snapshots

  /** The `name` member of a JSON object; empty if the text is no such object or has no such string. */
  function ClusterName(codec: Codec, raw: string): string {
    if raw == "" then ""
    else
      match codec.parse(raw)
      case Some(Obj(members)) => if "name" in members && members["name"].Str? then members["name"].s else ""
      case _ => ""
  }

  function SpecList(items: seq<Item>): seq<string> {
    seq(|items|, i requires 0 <= i < |items| => items[i].spec)
  }

  function VersionList(items: seq<Item>): seq<string> {
    seq(|items|, i requires 0 <= i < |items| => items[i].resourceVersion)
  }

  function SliceVersions(slices: seq<Slice>): seq<string> {
    seq(|slices|, i requires 0 <= i < |slices| => slices[i].resourceVersion)
  }

  /** The loop shared by the four `collect` functions; Clusters also keep the items. */
  method CollectItems(list: seq<Item>, proxy: Key) returns (specs: seq<string>, versions: seq<string>, items: seq<Item>)
    ensures items == Matching(list, proxy) && specs == SpecList(items) && versions == VersionList(items)
  {
    specs, versions, items := [], [], [];
    for i := 0 to |list|
      invariant items == Matching(list[..i], proxy) && specs == SpecList(items) && versions == VersionList(items)
    {
      assert list[..i + 1][..i] == list[..i];
      if TargetMatches(list[i].targetRef, list[i].namespace, proxy) {
        specs := specs + [list[i].spec];
        versions := versions + [list[i].resourceVersion];
        items := items + [list[i]];
      }
    }
    assert list[..|list|] == list;
  }

  /** Everything one reconcile reads for a proxy: `slices` has one list per synthesised cluster. */
  datatype Reads = Reads(
    listeners: seq<Item>, clusters: seq<Item>, routes: seq<Item>, scopedRoutes: seq<Item>,
    assignments: seq<Item>, slices: seq<seq<Slice>>)

  /** The names that manual assignments claim, by the given name lookup. */
  function ManualNames(lookup: string -> string, assignments: seq<Item>): set<string> {
    set x | x in assignments :: lookup(x.spec)
  }

  predicate Synthesises(codec: Codec, cluster: Item, manual: set<string>) {
    var name := ClusterName(codec, cluster.spec);
    cluster.serviceRef.Some? && name != "" && name !in manual
  }

  /** The clusters for which an assignment is synthesised, in order. */
  function SynthesisedClusters(codec: Codec, clusters: seq<Item>, manual: set<string>): (r: seq<Item>)
    ensures forall c <- r :: c in clusters && Synthesises(codec, c, manual)
  {
    if clusters == [] then []
    else
      var n := |clusters| - 1;
      SynthesisedClusters(codec, clusters[..n], manual)
      + if Synthesises(codec, clusters[n], manual) then [clusters[n]] else []
  }

  /** The lookup the code applies to Clusters and to ClusterLoadAssignments alike. */
  function Lookup(codec: Codec): string -> string {
    raw => ClusterName(codec, raw)
  }

  function Synthesising(codec: Codec, clusters: seq<Item>, assignments: seq<Item>): seq<Item> {
    SynthesisedClusters(codec, clusters, ManualNames(Lookup(codec), assignments))
  }

  function SliceLists(clusters: seq<Item>, slices: seq<Slice>): seq<seq<Slice>>
    requires forall c <- clusters :: c.serviceRef.Some?
  {
    seq(|clusters|, i requires 0 <= i < |clusters| => SlicesOf(slices, ServiceOf(clusters[i])))
  }

  /** All reads done against one state of the world. */
  function ReadAll(codec: Codec, w: World, proxy: Key): Reads {
    var clusters, assignments := Matching(w.clusters, proxy), Matching(w.assignments, proxy);
    Reads(Matching(w.listeners, proxy), clusters, Matching(w.routes, proxy), Matching(w.scopedRoutes, proxy),
          assignments, SliceLists(Synthesising(codec, clusters, assignments), w.slices))
  }

  /** The synthesised specs of some clusters, or None if one of them cannot be marshalled. */
  function SynthesisedSpecs(codec: Codec, clusters: seq<Item>, slices: seq<seq<Slice>>): Option<seq<string>>
    requires |clusters| == |slices| && forall c <- clusters :: c.serviceRef.Some?
  {
    if clusters == [] then Some([])
    else
      var n := |clusters| - 1;
      var before := SynthesisedSpecs(codec, clusters[..n], slices[..n]);
      var raw := codec.marshal(Synthesized(ClusterName(codec, clusters[n].spec), slices[n],
                                           clusters[n].serviceRef.value.port));
      if before.None? || raw.None? then None else Some(before.value + [raw.value])
  }

  function Flatten(lists: seq<seq<string>>): seq<string> {
    if lists == [] then [] else Flatten(lists[..|lists| - 1]) + lists[|lists| - 1]
  }

  function AllSliceVersions(slices: seq<seq<Slice>>): seq<string> {
    if slices == [] then [] else AllSliceVersions(slices[..|slices| - 1]) + SliceVersions(slices[|slices| - 1])
  }

  datatype Collected = Collected(specs: seq<string>, versions: seq<string>) | MarshalError

  predicate Complete(codec: Codec, r: Reads) {
    |r.slices| == |Synthesising(codec, r.clusters, r.assignments)|
  }

  function EndpointsOf(codec: Codec, r: Reads): Collected
    requires Complete(codec, r)
  {
    match SynthesisedSpecs(codec, Synthesising(codec, r.clusters, r.assignments), r.slices)
    case None => MarshalError
    case Some(specs) =>
      Collected(SpecList(r.assignments) + specs, VersionList(r.assignments) + AllSliceVersions(r.slices))
  }

  /** The reads of the endpoint part, for given cluster items. */
  function EndpointReads(codec: Codec, w: World, proxy: Key, clusters: seq<Item>): Reads {
    var assignments := Matching(w.assignments, proxy);
    Reads([], clusters, [], [], assignments, SliceLists(Synthesising(codec, clusters, assignments), w.slices))
  }

  /** `collectEndpoints`, for the cluster items that were collected before. */
  method CollectEndpoints(codec: Codec, w: World, proxy: Key, clusters: seq<Item>) returns (out: Collected)
    ensures out == EndpointsOf(codec, EndpointReads(codec, w, proxy, clusters))
  {
    var specs, versions, assignments := CollectItems(w.assignments, proxy);
    var manual: set<string> := {};
    for i := 0 to |assignments|
      invariant manual == ManualNames(Lookup(codec), assignments[..i])
    {
      manual := manual + {ClusterName(codec, assignments[i].spec)};
      assert assignments[..i + 1] == assignments[..i] + [assignments[i]];
    }
    assert assignments[..|assignments|] == assignments;
    out := SynthesiseAll(codec, w.slices, clusters, manual, specs, versions);
  }

  /** The synthesised specs when all slice lists come from one state of the world. */
  function SynthesisedFrom(codec: Codec, clusters: seq<Item>, slices: seq<Slice>): Option<seq<string>>
    requires forall c <- clusters :: c.serviceRef.Some?
  {
    SynthesisedSpecs(codec, clusters, SliceLists(clusters, slices))
  }

  function MarshalFor(codec: Codec, c: Item, slices: seq<Slice>): Option<string>
    requires c.serviceRef.Some?
  {
    codec.marshal(Synthesized(ClusterName(codec, c.spec), SlicesOf(slices, ServiceOf(c)), c.serviceRef.value.port))
  }

  lemma OneMoreSynthesised(codec: Codec, cs: seq<Item>, c: Item, slices: seq<Slice>)
    requires c.serviceRef.Some? && forall x <- cs :: x.serviceRef.Some?
    ensures var before, raw := SynthesisedFrom(codec, cs, slices), MarshalFor(codec, c, slices);
            SynthesisedFrom(codec, cs + [c], slices)
            == if before.None? || raw.None? then None else Some(before.value + [raw.value])
  {
    OneMoreSliceList(cs, c, slices);
    assert (cs + [c])[..|cs|] == cs && (cs + [c])[|cs|] == c;
  }

  lemma OneMoreSliceList(cs: seq<Item>, c: Item, slices: seq<Slice>)
    requires c.serviceRef.Some? && forall x <- cs :: x.serviceRef.Some?
    ensures var lists := SliceLists(cs + [c], slices);
            lists[..|cs|] == SliceLists(cs, slices) && lists[|cs|] == SlicesOf(slices, ServiceOf(c))
    ensures AllSliceVersions(SliceLists(cs + [c], slices))
            == AllSliceVersions(SliceLists(cs, slices)) + SliceVersions(SlicesOf(slices, ServiceOf(c)))
  {
    var all, lists := cs + [c], SliceLists(cs + [c], slices);
    assert all[..|cs|] == cs && all[|cs|] == c;
    assert lists[..|cs|] == SliceLists(cs, slices);
  }

  lemma OneMoreCluster(codec: Codec, clusters: seq<Item>, manual: set<string>, i: nat)
    requires i < |clusters|
    ensures SynthesisedClusters(codec, clusters[..i + 1], manual)
            == SynthesisedClusters(codec, clusters[..i], manual)
               + if Synthesises(codec, clusters[i], manual) then [clusters[i]] else []
  {
    assert clusters[..i + 1][..i] == clusters[..i];
  }

  /** The second loop of `collectEndpoints`. */
  method SynthesiseAll(codec: Codec, slices: seq<Slice>, clusters: seq<Item>, manual: set<string>,
                       manualSpecs: seq<string>, manualVersions: seq<string>) returns (out: Collected)
    ensures var cs := SynthesisedClusters(codec, clusters, manual);
            out == match SynthesisedFrom(codec, cs, slices)
                   case None => MarshalError
                   case Some(specs) =>
                     Collected(manualSpecs + specs, manualVersions + AllSliceVersions(SliceLists(cs, slices)))
  {
    var specs, versions := [], [];
    ghost var cs := [];
    for i := 0 to |clusters|
      invariant cs == SynthesisedClusters(codec, clusters[..i], manual)
      invariant SynthesisedFrom(codec, cs, slices) == Some(specs)
      invariant AllSliceVersions(SliceLists(cs, slices)) == versions
    {
      var c := clusters[i];
      OneMoreCluster(codec, clusters, manual, i);
      if Synthesises(codec, c, manual) {
        OneMoreSynthesised(codec, cs, c, slices);
        OneMoreSliceList(cs, c, slices);
        var mine := SlicesOf(slices, ServiceOf(c));
        var cla := SynthesizeCLA(ClusterName(codec, c.spec), mine, c.serviceRef.value.port);
        var raw := codec.marshal(cla);
        if raw.None? {
          MarshalErrorStays(codec, clusters, manual, slices, i + 1);
          return MarshalError;
        }
        specs := specs + [raw.value];
        versions := versions + SliceVersions(mine);
        cs := cs + [c];
      }
    }
    assert clusters[..|clusters|] == clusters;
    return Collected(manualSpecs + specs, manualVersions + versions);
  }

  lemma {:induction false} MarshalErrorStays(codec: Codec, clusters: seq<Item>, manual: set<string>,
                                             slices: seq<Slice>, n: nat)
    requires n <= |clusters|
    requires SynthesisedFrom(codec, SynthesisedClusters(codec, clusters[..n], manual), slices).None?
    ensures SynthesisedFrom(codec, SynthesisedClusters(codec, clusters, manual), slices).None?
    decreases |clusters| - n
  {
    if n == |clusters| {
      assert clusters[..n] == clusters;
    } else {
      var cs := SynthesisedClusters(codec, clusters[..n], manual);
      OneMoreCluster(codec, clusters, manual, n);
      if Synthesises(codec, clusters[n], manual) {
        OneMoreSynthesised(codec, cs, clusters[n], slices);
      } else {
        assert cs + [] == cs;
      }
      MarshalErrorStays(codec, clusters, manual, slices, n + 1);
    }
  }

  function Concat(texts: seq<string>): string {
    if texts == [] then "" else texts[0] + Concat(texts[1..])
  }

  /** The un-delimited text that `computeVersion` hashes. */
  function HashInput(r: Reads, endpointVersions: seq<string>): string {
    Concat(VersionList(r.listeners) + VersionList(r.clusters) + VersionList(r.routes) + VersionList(r.scopedRoutes)
           + endpointVersions)
  }

  method ComputeVersion(codec: Codec, groups: seq<seq<string>>) returns (version: string)
    ensures version == codec.digest(Concat(Flatten(groups)))
  {
    var input := "";
    for i := 0 to |groups|
      invariant input == Concat(Flatten(groups[..i]))
    {
      assert groups[..i + 1][..i] == groups[..i];
      for j := 0 to |groups[i]|
        invariant input == Concat(Flatten(groups[..i])) + Concat(groups[i][..j])
      {
        input := input + groups[i][j];
        assert groups[i][..j + 1] == groups[i][..j] + [groups[i][j]];
        ConcatAppend(groups[i][..j], [groups[i][j]]);
      }
      assert groups[i][..|groups[i]|] == groups[i];
      ConcatAppend(Flatten(groups[..i]), groups[i]);
    }
    assert groups[..|groups|] == groups;
    version := codec.digest(input);
  }

  lemma {:induction false} ConcatAppend(a: seq<string>, b: seq<string>)
    ensures Concat(a + b) == Concat(a) + Concat(b)
  {
    if a == [] {
      assert a + b == b;
    } else {
      assert (a + b)[1..] == a[1..] + b;
      ConcatAppend(a[1..], b);
    }
  }

  /** What a reconcile makes of its reads. */
  datatype Outcome = Good(snapshot: Snapshot) | BadSpec(kind: Kind, index: nat) | BadMarshal

  function OutcomeOf(codec: Codec, r: Reads): Outcome
    requires Complete(codec, r)
  {
    match EndpointsOf(codec, r)
    case MarshalError => BadMarshal
    case Collected(specs, versions) =>
      match BuildOf(codec, codec.digest(HashInput(r, versions)),
                    Specs(SpecList(r.listeners), SpecList(r.clusters), SpecList(r.routes), SpecList(r.scopedRoutes),
                          specs))
      case Built(snapshot) => Good(snapshot)
      case Failed(kind, i) => BadSpec(kind, i)
  }

  /** The from-scratch build of the current world for a proxy. */
  function FromScratch(codec: Codec, w: World, proxy: Key): Outcome {
    OutcomeOf(codec, ReadAll(codec, w, proxy))
  }

  /** A whole pass of `Reconcile`, up to the snapshot, against one state of the world. */
  method Pass(codec: Codec, w: World, proxy: Key) returns (out: Outcome)
    ensures out == FromScratch(codec, w, proxy)
  {
    var listeners, lVers, lItems := CollectItems(w.listeners, proxy);
    var clusters, cVers, cItems := CollectItems(w.clusters, proxy);
    var routes, rVers, rItems := CollectItems(w.routes, proxy);
    var scoped, sVers, sItems := CollectItems(w.scopedRoutes, proxy);
    var endpoints := CollectEndpoints(codec, w, proxy, cItems);
    match endpoints {
      case MarshalError =>
        return BadMarshal;
      case Collected(eSpecs, eVers) =>
        var groups := [lVers, cVers, rVers, sVers, eVers];
        var version := ComputeVersion(codec, groups);
        FlattenFive(lVers, cVers, rVers, sVers, eVers);
        var build := BuildSnapshot(codec, version, Specs(listeners, clusters, routes, scoped, eSpecs));
        match build {
          case Built(snapshot) => return Good(snapshot);
          case Failed(kind, i) => return BadSpec(kind, i);
        }
    }
  }

  lemma FlattenFive(a: seq<string>, b: seq<string>, c: seq<string>, d: seq<string>, e: seq<string>)
    ensures Flatten([a, b, c, d, e]) == a + b + c + d + e
  {
    assert [a, b, c, d, e][..4] == [a, b, c, d];
    assert [a, b, c, d][..3] == [a, b, c];
    assert [a, b, c][..2] == [a, b];
    assert [a, b][..1] == [a];
    assert [a][..0] == [];
    assert Flatten([a]) == [] + a == a;
    assert Flatten([a, b]) == a + b;
    assert Flatten([a, b, c]) == a + b + c;
    assert Flatten([a, b, c, d]) == a + b + c + d;
  }
}
