/** Manual endpoint assignments against synthesised ones. */
module Precedence {
  import opened Options
  import opened JsonValue
  import opened Mesh
  import opened Eds
  import opened Snapshots
  import opened Collect

  /** Marshalled assignments are not empty and decode to a resource of the same cluster name. */
  ghost predicate FaithfulMarshal(codec: Codec) {
    forall cla :: codec.marshal(cla).Some? ==>
      && codec.marshal(cla).value != ""
      && codec.decode(EndpointKind, codec.marshal(cla).value).Some?
      && codec.decode(EndpointKind, codec.marshal(cla).value).value.name == cla.clusterName
  }

  lemma {:induction false} DecodeAppend(codec: Codec, kind: Kind, a: seq<string>, b: seq<string>)
    requires DecodeAll(codec, kind, a).Resources? && DecodeAll(codec, kind, b).Resources?
    ensures DecodeAll(codec, kind, a + b)
            == Resources(DecodeAll(codec, kind, a).resources + DecodeAll(codec, kind, b).resources)
  {
    if b == [] {
      assert a + b == a;
    } else {
      assert (a + b)[..|a + b| - 1] == a + b[..|b| - 1];
      DecodeAppend(codec, kind, a, b[..|b| - 1]);
    }
  }

  /** The resources decoded from synthesised specs are named after their clusters, one each. */
  lemma {:induction false} SynthesisedNames(codec: Codec, clusters: seq<Item>, slices: seq<seq<Slice>>)
    requires FaithfulMarshal(codec)
    requires |clusters| == |slices| && (forall c <- clusters :: c.serviceRef.Some?)
             && SynthesisedSpecs(codec, clusters, slices).Some?
    ensures var d := DecodeAll(codec, EndpointKind, SynthesisedSpecs(codec, clusters, slices).value);
            && d.Resources? && |d.resources| == |clusters|
            && forall i | 0 <= i < |clusters| :: d.resources[i].name == ClusterName(codec, clusters[i].spec)
  {
    if clusters != [] {
      var n := |clusters| - 1;
      SynthesisedNames(codec, clusters[..n], slices[..n]);
      var before := SynthesisedSpecs(codec, clusters[..n], slices[..n]).value;
      var all := SynthesisedSpecs(codec, clusters, slices).value;
      assert all[..|all| - 1] == before;
    }
  }

  lemma {:induction false} DecodedFrom(codec: Codec, kind: Kind, raws: seq<string>, i: nat)
    requires DecodeAll(codec, kind, raws).Resources? && i < |DecodeAll(codec, kind, raws).resources|
    ensures exists raw ::
              raw in raws && raw != "" && codec.decode(kind, raw) == Some(DecodeAll(codec, kind, raws).resources[i])
    decreases |raws|
  {
    var n := |raws| - 1;
    var before := DecodeAll(codec, kind, raws[..n]).resources;
    if i < |before| {
      DecodedFrom(codec, kind, raws[..n], i);
    } else {
      assert raws[n] in raws;
    }
  }

  lemma {:induction false} DecodedTo(codec: Codec, kind: Kind, raws: seq<string>, raw: string)
    requires DecodeAll(codec, kind, raws).Resources? && raw in raws && raw != ""
    ensures codec.decode(kind, raw).Some? && codec.decode(kind, raw).value in DecodeAll(codec, kind, raws).resources
  {
    var n := |raws| - 1;
    if raws[n] != raw {
      DecodedTo(codec, kind, raws[..n], raw);
    }
  }

  /** Some manual assignment with a spec is for the cluster `name`. */
  ghost predicate ManuallyAssigned(codec: Codec, assignments: seq<Item>, name: string) {
    exists x :: x in assignments && x.spec != "" && codec.decode(EndpointKind, x.spec).Some?
                && codec.decode(EndpointKind, x.spec).value.name == name
  }

  /** Some cluster with a Service is called `name`, and no manual assignment claims that name. */
  ghost predicate Unclaimed(codec: Codec, lookup: string -> string, clusters: seq<Item>, assignments: seq<Item>,
                            name: string) {
    && name != "" && name !in ManualNames(lookup, assignments)
    && exists c :: c in clusters && c.serviceRef.Some? && ClusterName(codec, c.spec) == name
  }

  lemma {:induction false} SynthesisedClustersHold(codec: Codec, clusters: seq<Item>, manual: set<string>, c: Item)
    ensures c in SynthesisedClusters(codec, clusters, manual) <==> c in clusters && Synthesises(codec, c, manual)
  {
    if clusters != [] {
      SynthesisedClustersHold(codec, clusters[..|clusters| - 1], manual, c);
    }
  }

  /**
   * For any name lookup: the resource that the index holds for a manually assigned cluster comes
   * from the manual part of the list, unless the lookup leaves the name unclaimed.
   */
  lemma {:induction false} ManualWinsUnlessUnclaimed(codec: Codec, lookup: string -> string, clusters: seq<Item>,
                                                     assignments: seq<Item>, slices: seq<seq<Slice>>,
                                                     manual: seq<Resource>, specs: seq<string>, name: string)
    requires FaithfulMarshal(codec)
    requires DecodeAll(codec, EndpointKind, SpecList(assignments)) == Resources(manual)
    requires var cs := SynthesisedClusters(codec, clusters, ManualNames(lookup, assignments));
             |cs| == |slices| && SynthesisedSpecs(codec, cs, slices) == Some(specs)
    requires ManuallyAssigned(codec, assignments, name)
    ensures DecodeAll(codec, EndpointKind, SpecList(assignments) + specs).Resources?
    ensures var all := DecodeAll(codec, EndpointKind, SpecList(assignments) + specs).resources;
            && manual <= all && LastNamed(all, name).Some? && name in Index(all)
            && Index(all)[name] == all[LastNamed(all, name).value]
            && (LastNamed(all, name).value < |manual| <==> !Unclaimed(codec, lookup, clusters, assignments, name))
  {
    var cs := SynthesisedClusters(codec, clusters, ManualNames(lookup, assignments));
    SynthesisedNames(codec, cs, slices);
    DecodeAppend(codec, EndpointKind, SpecList(assignments), specs);
    var made := DecodeAll(codec, EndpointKind, specs).resources;
    ManualResource(codec, assignments, name);
    LastIsManual(manual, made, name);
    MadeIffUnclaimed(codec, lookup, clusters, assignments, made, name);
  }

  lemma LastIsManual(manual: seq<Resource>, made: seq<Resource>, name: string)
    requires exists i | 0 <= i < |manual| :: manual[i].name == name
    ensures var all := manual + made;
            && LastNamed(all, name).Some? && name in Index(all) && Index(all)[name] == all[LastNamed(all, name).value]
            && (LastNamed(all, name).value < |manual| <==> forall j | 0 <= j < |made| :: made[j].name != name)
  {
    var all := manual + made;
    var i :| 0 <= i < |manual| && manual[i].name == name;
    assert all[i].name == name;
    IndexHoldsLast(all, name);
    var at := LastNamed(all, name).value;
    if at < |manual| {
      forall j | 0 <= j < |made| ensures made[j].name != name {
        assert all[|manual| + j] == made[j];
      }
    } else {
      assert made[at - |manual|] == all[at];
    }
  }

  /** A name is synthesised exactly when it is unclaimed. */
  lemma MadeIffUnclaimed(codec: Codec, lookup: string -> string, clusters: seq<Item>, assignments: seq<Item>,
                         made: seq<Resource>, name: string)
    requires var cs := SynthesisedClusters(codec, clusters, ManualNames(lookup, assignments));
             |made| == |cs| && forall i | 0 <= i < |cs| :: made[i].name == ClusterName(codec, cs[i].spec)
    ensures Unclaimed(codec, lookup, clusters, assignments, name)
            <==> exists j | 0 <= j < |made| :: made[j].name == name
  {
    var manual := ManualNames(lookup, assignments);
    var cs := SynthesisedClusters(codec, clusters, manual);
    if Unclaimed(codec, lookup, clusters, assignments, name) {
      var c :| c in clusters && c.serviceRef.Some? && ClusterName(codec, c.spec) == name;
      SynthesisedClustersHold(codec, clusters, manual, c);
      var j :| 0 <= j < |cs| && cs[j] == c;
      assert made[j].name == name;
    }
    if exists j | 0 <= j < |made| :: made[j].name == name {
      var j :| 0 <= j < |made| && made[j].name == name;
      assert cs[j] in cs;
      SynthesisedClustersHold(codec, clusters, manual, cs[j]);
    }
  }

  lemma ManualResource(codec: Codec, assignments: seq<Item>, name: string)
    requires DecodeAll(codec, EndpointKind, SpecList(assignments)).Resources?
             && ManuallyAssigned(codec, assignments, name)
    ensures exists i | 0 <= i < |DecodeAll(codec, EndpointKind, SpecList(assignments)).resources| ::
              DecodeAll(codec, EndpointKind, SpecList(assignments)).resources[i].name == name
  {
    var x :| x in assignments && x.spec != "" && codec.decode(EndpointKind, x.spec).Some?
             && codec.decode(EndpointKind, x.spec).value.name == name;
    var i :| 0 <= i < |assignments| && assignments[i] == x;
    assert SpecList(assignments)[i] == x.spec;
    DecodedTo(codec, EndpointKind, SpecList(assignments), x.spec);
  }

  /** The lookup returns the cluster name of every manual assignment that has a spec. */
  ghost predicate ReadsClusterName(codec: Codec, lookup: string -> string, assignments: seq<Item>) {
    forall x <- assignments :: x.spec != "" && codec.decode(EndpointKind, x.spec).Some? ==>
      lookup(x.spec) == codec.decode(EndpointKind, x.spec).value.name
  }

  /** With a lookup of `cluster_name` no manually assigned name is unclaimed: manual always wins. */
  lemma RightLookupClaims(codec: Codec, lookup: string -> string, clusters: seq<Item>, assignments: seq<Item>,
                          name: string)
    requires ReadsClusterName(codec, lookup, assignments) && ManuallyAssigned(codec, assignments, name)
    ensures !Unclaimed(codec, lookup, clusters, assignments, name)
  {
    var x :| x in assignments && x.spec != "" && codec.decode(EndpointKind, x.spec).Some?
             && codec.decode(EndpointKind, x.spec).value.name == name;
    assert lookup(x.spec) in ManualNames(lookup, assignments);
  }

  lemma GoodEndpoints(codec: Codec, r: Reads)
    requires Complete(codec, r) && OutcomeOf(codec, r).Good?
    ensures var made := SynthesisedSpecs(codec, Synthesising(codec, r.clusters, r.assignments), r.slices);
            && made.Some?
            && DecodeAll(codec, EndpointKind, SpecList(r.assignments) + made.value).Resources?
            && OutcomeOf(codec, r).snapshot.endpoints
              == Index(DecodeAll(codec, EndpointKind, SpecList(r.assignments) + made.value).resources)
  {
  }

  /** The endpoint resource was decoded from one of the given specs. */
  ghost predicate DecodedFromOne(codec: Codec, raws: seq<string>, r: Resource) {
    exists raw :: raw in raws && raw != "" && codec.decode(EndpointKind, raw) == Some(r)
  }

  /**
   * In the snapshot as the code builds it: a manually assigned cluster gets the resource of a
   * manual assignment if its name is claimed, and that of a synthesised one if it is not.
   */
  lemma {:induction false} ManualInSnapshot(codec: Codec, r: Reads, name: string)
    requires FaithfulMarshal(codec) && Complete(codec, r) && OutcomeOf(codec, r).Good?
    requires ManuallyAssigned(codec, r.assignments, name)
    ensures var endpoints := OutcomeOf(codec, r).snapshot.endpoints;
            var made := SynthesisedSpecs(codec, Synthesising(codec, r.clusters, r.assignments), r.slices);
            && name in endpoints && made.Some?
            && DecodedFromOne(codec, if Unclaimed(codec, Lookup(codec), r.clusters, r.assignments, name) then made.value
                                     else SpecList(r.assignments), endpoints[name])
  {
    GoodEndpoints(codec, r);
    var cs := Synthesising(codec, r.clusters, r.assignments);
    var specs, manualSpecs := SynthesisedSpecs(codec, cs, r.slices).value, SpecList(r.assignments);
    DecodePrefix(codec, EndpointKind, manualSpecs, specs);
    SynthesisedNames(codec, cs, r.slices);
    DecodeAppend(codec, EndpointKind, manualSpecs, specs);
    var manual := DecodeAll(codec, EndpointKind, manualSpecs).resources;
    ManualWinsUnlessUnclaimed(codec, Lookup(codec), r.clusters, r.assignments, r.slices, manual, specs, name);
    SourceOf(codec, manualSpecs, specs, name);
  }

  lemma {:induction false} SourceOf(codec: Codec, a: seq<string>, b: seq<string>, name: string)
    requires DecodeAll(codec, EndpointKind, a).Resources? && DecodeAll(codec, EndpointKind, b).Resources?
    requires LastNamed(DecodeAll(codec, EndpointKind, a).resources + DecodeAll(codec, EndpointKind, b).resources,
                       name).Some?
    ensures var manual := DecodeAll(codec, EndpointKind, a).resources;
            var made := DecodeAll(codec, EndpointKind, b).resources;
            var at := LastNamed(manual + made, name).value;
            DecodedFromOne(codec, if at < |manual| then a else b, (manual + made)[at])
  {
    var manual, made := DecodeAll(codec, EndpointKind, a).resources, DecodeAll(codec, EndpointKind, b).resources;
    var at := LastNamed(manual + made, name).value;
    if at < |manual| {
      DecodedFrom(codec, EndpointKind, a, at);
      assert (manual + made)[at] == manual[at];
    } else {
      DecodedFrom(codec, EndpointKind, b, at - |manual|);
      assert (manual + made)[at] == made[at - |manual|];
    }
  }

  /** The spec is a JSON object without a `name` member, as a ClusterLoadAssignment is. */
  predicate Nameless(codec: Codec, raw: string) {
    codec.parse(raw).Some? && codec.parse(raw).value.Obj? && "name" !in codec.parse(raw).value.members
  }

  /**
   * Manual precedence fails as a rule: when assignments are written with `cluster_name` alone, a
   * manual assignment loses to the synthesised one for every cluster that has a Service.
   */
  lemma {:induction false} SynthesisedWins(codec: Codec, r: Reads, cluster: Item)
    requires FaithfulMarshal(codec) && Complete(codec, r) && OutcomeOf(codec, r).Good?
    requires forall x <- r.assignments :: Nameless(codec, x.spec)
    requires cluster in r.clusters && cluster.serviceRef.Some? && ClusterName(codec, cluster.spec) != ""
    requires ManuallyAssigned(codec, r.assignments, ClusterName(codec, cluster.spec))
    ensures var name := ClusterName(codec, cluster.spec);
            var made := SynthesisedSpecs(codec, Synthesising(codec, r.clusters, r.assignments), r.slices);
            && name in OutcomeOf(codec, r).snapshot.endpoints && made.Some?
            && DecodedFromOne(codec, made.value, OutcomeOf(codec, r).snapshot.endpoints[name])
  {
    var name := ClusterName(codec, cluster.spec);
    assert name !in ManualNames(Lookup(codec), r.assignments);
    assert Unclaimed(codec, Lookup(codec), r.clusters, r.assignments, name);
    ManualInSnapshot(codec, r, name);
  }

  lemma {:induction false} DecodePrefix(codec: Codec, kind: Kind, a: seq<string>, b: seq<string>)
    requires DecodeAll(codec, kind, a + b).Resources?
    ensures DecodeAll(codec, kind, a).Resources?
  {
    if b == [] {
      assert a + b == a;
    } else {
      assert (a + b)[..|a + b| - 1] == a + b[..|b| - 1];
      DecodePrefix(codec, kind, a, b[..|b| - 1]);
    }
  }

  // ----- An instance -----

  /** Libraries that know two specs: "m", an assignment for `web`, and "c", a cluster of that name. */
  const SAMPLE: Codec := Codec(
    raw => if raw == "m" then Some(Obj(map["cluster_name" := Str("web")]))
           else if raw == "c" then Some(Obj(map["name" := Str("web")])) else None,
    (kind, raw) => if raw == "m" then Some(Resource("web", "manual"))
                   else if raw == "c" then Some(Resource("web", "cluster"))
                   else if raw != "" && raw[0] == 's' then Some(Resource(raw[1..], "synthesised")) else None,
    (cla: Assignment) => Some("s" + cla.clusterName),
    text => text)

  lemma SampleLibraries()
    ensures FaithfulMarshal(SAMPLE)
    ensures ClusterName(SAMPLE, "c") == "web" && ClusterName(SAMPLE, "m") == ""
    ensures SAMPLE.decode(EndpointKind, "m") == Some(Resource("web", "manual"))
    ensures SAMPLE.decode(ClusterKind, "c") == Some(Resource("web", "cluster"))
    ensures forall cla: Assignment :: cla.clusterName == "web" ==> SAMPLE.marshal(cla) == Some("sweb")
    ensures SAMPLE.decode(EndpointKind, "sweb") == Some(Resource("web", "synthesised"))
  {
    assert "s" + "web" == "sweb" && "sweb"[1..] == "web";
  }

  lemma LoneCluster(codec: Codec, cluster: Item, manual: set<string>, slices: seq<Slice>, raw: string)
    requires Synthesises(codec, cluster, manual)
    requires codec.marshal(Synthesized(ClusterName(codec, cluster.spec), slices, cluster.serviceRef.value.port))
             == Some(raw)
    ensures SynthesisedClusters(codec, [cluster], manual) == [cluster]
    ensures SynthesisedSpecs(codec, [cluster], [slices]) == Some([raw])
  {
    assert [cluster][..0] == [] && [slices][..0] == [];
    assert SynthesisedClusters(codec, [], manual) == [];
    assert SynthesisedSpecs(codec, [], []) == Some([]);
    assert [] + [cluster] == [cluster] && [] + [raw] == [raw];
  }

  lemma DecodeOne(codec: Codec, kind: Kind, raw: string, r: Resource)
    requires raw != "" && codec.decode(kind, raw) == Some(r)
    ensures DecodeAll(codec, kind, [raw]) == Resources([r])
  {
    var raws := [raw];
    assert |raws| == 1 && raws[0] == raw && raws[..0] == [];
    assert DecodeAll(codec, kind, raws[..0]) == Resources([]);
    assert DecodeAll(codec, kind, raws) == Resources([] + [r]);
  }

  lemma DecodeTwo(codec: Codec, kind: Kind, raw: string, other: string, a: Resource, b: Resource)
    requires raw != "" && codec.decode(kind, raw) == Some(a) && other != "" && codec.decode(kind, other) == Some(b)
    ensures DecodeAll(codec, kind, [raw, other]) == Resources([a, b])
  {
    DecodeOne(codec, kind, raw, a);
    DecodeOne(codec, kind, other, b);
    DecodeAppend(codec, kind, [raw], [other]);
    assert [raw] + [other] == [raw, other] && [a] + [b] == [a, b];
  }

  lemma IndexTwo(a: Resource, b: Resource)
    requires a.name == b.name
    ensures Index([a, b]) == map[a.name := b]
  {
    assert [a, b][..1] == [a] && [a][..0] == [];
    assert Index([a]) == map[a.name := a];
  }

  /** One manual assignment and one synthesised one, for a name that is not claimed. */
  lemma {:induction false} LaterOneIsIndexed(codec: Codec, r: Reads, cluster: Item, manual: Item, slices: seq<Slice>,
                                             raw: string, a: Resource, b: Resource, c: Resource)
    requires r == Reads([], [cluster], [], [], [manual], [slices])
    requires ClusterName(codec, manual.spec) == "" && ClusterName(codec, cluster.spec) != "" && cluster.serviceRef.Some?
    requires codec.marshal(Synthesized(ClusterName(codec, cluster.spec), slices, cluster.serviceRef.value.port))
             == Some(raw)
    requires manual.spec != "" && raw != "" && cluster.spec != "" && codec.decode(ClusterKind, cluster.spec) == Some(c)
    requires codec.decode(EndpointKind, manual.spec) == Some(a) && codec.decode(EndpointKind, raw) == Some(b)
             && a.name == b.name
    ensures Complete(codec, r) && OutcomeOf(codec, r).Good?
            && OutcomeOf(codec, r).snapshot.endpoints == map[a.name := b]
  {
    var names := ManualNames(Lookup(codec), [manual]);
    assert names == {""};
    LoneCluster(codec, cluster, names, slices, raw);
    assert SpecList([manual]) + [raw] == [manual.spec, raw] && SpecList([cluster]) == [cluster.spec];
    DecodeTwo(codec, EndpointKind, manual.spec, raw, a, b);
    IndexTwo(a, b);
    DecodeOne(codec, ClusterKind, cluster.spec, c);
  }

  lemma LoneMatch(x: Item, proxy: Key)
    requires TargetMatches(x.targetRef, x.namespace, proxy)
    ensures Matching([x], proxy) == [x]
  {
    assert [x][..0] == [];
  }

  /** A concrete world: `web` has a manual assignment, and the snapshot holds the synthesised one. */
  lemma {:induction false} SynthesisedWinsInstance(cluster: Item, manual: Item, proxy: Key)
    requires cluster.spec == "c" && cluster.serviceRef.Some?
             && TargetMatches(cluster.targetRef, cluster.namespace, proxy)
    requires manual.spec == "m" && TargetMatches(manual.targetRef, manual.namespace, proxy)
    ensures var out := FromScratch(SAMPLE, World({proxy}, [], [cluster], [], [], [manual], []), proxy);
            && SAMPLE.decode(EndpointKind, manual.spec) == Some(Resource("web", "manual"))
            && out.Good? && out.snapshot.endpoints == map["web" := Resource("web", "synthesised")]
  {
    SampleLibraries();
    InstanceReads(SAMPLE, cluster, manual, proxy, "sweb");
    LaterOneIsIndexed(SAMPLE, ReadAll(SAMPLE, World({proxy}, [], [cluster], [], [], [manual], []), proxy),
                      cluster, manual, [], "sweb",
                      Resource("web", "manual"), Resource("web", "synthesised"), Resource("web", "cluster"));
  }

  lemma InstanceReads(codec: Codec, cluster: Item, manual: Item, proxy: Key, raw: string)
    requires cluster.serviceRef.Some? && TargetMatches(cluster.targetRef, cluster.namespace, proxy)
    requires TargetMatches(manual.targetRef, manual.namespace, proxy)
    requires ClusterName(codec, manual.spec) == "" && ClusterName(codec, cluster.spec) != ""
    requires codec.marshal(Synthesized(ClusterName(codec, cluster.spec), [], cluster.serviceRef.value.port))
             == Some(raw)
    ensures ReadAll(codec, World({proxy}, [], [cluster], [], [], [manual], []), proxy)
            == Reads([], [cluster], [], [], [manual], [[]])
  {
    var names := ManualNames(Lookup(codec), [manual]);
    assert names == {""};
    LoneMatch(cluster, proxy);
    LoneMatch(manual, proxy);
    LoneCluster(codec, cluster, names, [], raw);
    assert SliceLists([cluster], []) == [[]];
  }
}
