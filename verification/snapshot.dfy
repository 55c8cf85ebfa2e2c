/** Assembly of an xDS snapshot from raw specs: all of them decode, or there is no snapshot. */
module Snapshots {
  import opened Options
  import opened JsonValue
  import opened Eds

  datatype Kind = ListenerKind | ClusterKind | RouteKind | ScopedRouteKind | EndpointKind

  /** A decoded resource: its xDS name and the rest. */
  datatype Resource = Resource(name: string, body: string)

  /** The libraries: JSON parsing, protojson both ways, and the digest of a version input. */
  datatype Codec = Codec(
    parse: string -> Option<Json>,
    decode: (Kind, string) -> Option<Resource>,
    marshal: Assignment -> Option<string>,
    digest: string -> string)

  /** Resources per kind, indexed by name. */
  datatype Snapshot = Snapshot(
    version: string, listeners: map<string, Resource>, clusters: map<string, Resource>,
    routes: map<string, Resource>, scopedRoutes: map<string, Resource>, endpoints: map<string, Resource>)

  datatype Decoded = Resources(resources: seq<Resource>) | BadItem(index: nat)

  datatype Build = Built(snapshot: Snapshot) | Failed(kind: Kind, index: nat)

  /** Decoding of a list: empty specs are skipped, the first bad one is reported. */
  function DecodeAll(codec: Codec, kind: Kind, raws: seq<string>): Decoded {
    if raws == [] then Resources([])
    else
      var n := |raws| - 1;
      match DecodeAll(codec, kind, raws[..n])
      case BadItem(i) => BadItem(i)
      case Resources(rs) =>
        if raws[n] == "" then Resources(rs)
        else
          match codec.decode(kind, raws[n])
          case None => BadItem(n)
          case Some(r) => Resources(rs + [r])
  }

  method UnmarshalAll(codec: Codec, kind: Kind, raws: seq<string>) returns (out: Decoded)
    ensures out == DecodeAll(codec, kind, raws)
  {
    var resources := [];
    for i := 0 to |raws|
      invariant DecodeAll(codec, kind, raws[..i]) == Resources(resources)
    {
      assert raws[..i + 1][..i] == raws[..i];
      if raws[i] == "" {
        continue;
      }
      var r := codec.decode(kind, raws[i]);
      if r.None? {
        BadItemStays(codec, kind, raws, i + 1);
        return BadItem(i);
      }
      resources := resources + [r.value];
    }
    assert raws[..|raws|] == raws;
    return Resources(resources);
  }

  lemma {:induction false} BadItemStays(codec: Codec, kind: Kind, raws: seq<string>, n: nat)
    requires n <= |raws| && DecodeAll(codec, kind, raws[..n]).BadItem?
    ensures DecodeAll(codec, kind, raws) == DecodeAll(codec, kind, raws[..n])
    decreases |raws|
  {
    if n < |raws| {
      assert raws[..|raws| - 1][..n] == raws[..n];
      BadItemStays(codec, kind, raws[..|raws| - 1], n);
    } else {
      assert raws[..n] == raws;
    }
  }

  predicate Decodes(codec: Codec, kind: Kind, raws: seq<string>) {
    forall i | 0 <= i < |raws| && raws[i] != "" :: codec.decode(kind, raws[i]).Some?
  }

  /** Exactly the lists whose non-empty specs all decode are decoded; otherwise the first bad one is named. */
  lemma {:induction false} DecodeAllOrNothing(codec: Codec, kind: Kind, raws: seq<string>)
    ensures DecodeAll(codec, kind, raws).Resources? <==> Decodes(codec, kind, raws)
    ensures DecodeAll(codec, kind, raws).BadItem? ==>
              var i := DecodeAll(codec, kind, raws).index;
              i < |raws| && raws[i] != "" && codec.decode(kind, raws[i]).None? && Decodes(codec, kind, raws[..i])
  {
    if raws != [] {
      var n := |raws| - 1;
      DecodeAllOrNothing(codec, kind, raws[..n]);
      if DecodeAll(codec, kind, raws).BadItem? && DecodeAll(codec, kind, raws).index < n {
        var i := DecodeAll(codec, kind, raws).index;
        assert raws[..n][..i] == raws[..i];
        assert raws[..n][i] == raws[i];
      }
    }
  }

  /** The snapshot index: a later resource of a name replaces an earlier one. */
  function Index(rs: seq<Resource>): map<string, Resource> {
    if rs == [] then map[] else Index(rs[..|rs| - 1])[rs[|rs| - 1].name := rs[|rs| - 1]]
  }

  /** The position of the last resource of a name. */
  function LastNamed(rs: seq<Resource>, name: string): (i: Option<nat>)
    ensures i.Some? ==> i.value < |rs| && rs[i.value].name == name
    ensures i.Some? ==> forall j | i.value < j < |rs| :: rs[j].name != name
    ensures i.None? <==> forall j | 0 <= j < |rs| :: rs[j].name != name
  {
    if rs == [] then None
    else if rs[|rs| - 1].name == name then Some(|rs| - 1)
    else LastNamed(rs[..|rs| - 1], name)
  }

  lemma {:induction false} IndexHoldsLast(rs: seq<Resource>, name: string)
    ensures name in Index(rs) <==> LastNamed(rs, name).Some?
    ensures name in Index(rs) ==> Index(rs)[name] == rs[LastNamed(rs, name).value]
  {
    if rs != [] {
      IndexHoldsLast(rs[..|rs| - 1], name);
    }
  }

  /** The raw specs of the five kinds. */
  datatype Specs = Specs(
    listeners: seq<string>, clusters: seq<string>, routes: seq<string>, scopedRoutes: seq<string>,
    endpoints: seq<string>)

  function SpecsOf(specs: Specs, kind: Kind): seq<string> {
    match kind
    case ListenerKind => specs.listeners
    case ClusterKind => specs.clusters
    case RouteKind => specs.routes
    case ScopedRouteKind => specs.scopedRoutes
    case EndpointKind => specs.endpoints
  }

  method BuildSnapshot(codec: Codec, version: string, specs: Specs) returns (b: Build)
    ensures b == BuildOf(codec, version, specs)
    ensures b.Built? <==> forall kind :: Decodes(codec, kind, SpecsOf(specs, kind))
    ensures b.Built? ==> Serves(codec, specs, b.snapshot) && b.snapshot.version == version
    ensures b.Failed? ==> FirstBad(codec, specs, b.kind, b.index)
  {
    AllOrNothing(codec, version, specs);
    BuildDescribed(codec, version, specs);
    var listeners := UnmarshalAll(codec, ListenerKind, specs.listeners);
    if listeners.BadItem? {
      return Failed(ListenerKind, listeners.index);
    }
    var clusters := UnmarshalAll(codec, ClusterKind, specs.clusters);
    if clusters.BadItem? {
      return Failed(ClusterKind, clusters.index);
    }
    var routes := UnmarshalAll(codec, RouteKind, specs.routes);
    if routes.BadItem? {
      return Failed(RouteKind, routes.index);
    }
    var scopedRoutes := UnmarshalAll(codec, ScopedRouteKind, specs.scopedRoutes);
    if scopedRoutes.BadItem? {
      return Failed(ScopedRouteKind, scopedRoutes.index);
    }
    var endpoints := UnmarshalAll(codec, EndpointKind, specs.endpoints);
    if endpoints.BadItem? {
      return Failed(EndpointKind, endpoints.index);
    }
    return Built(Snapshot(version, Index(listeners.resources), Index(clusters.resources), Index(routes.resources),
                          Index(scopedRoutes.resources), Index(endpoints.resources)));
  }

  /** Spec `i` is not empty and decodes to a resource of the name. */
  predicate Gives(codec: Codec, kind: Kind, raws: seq<string>, name: string, i: nat) {
    && i < |raws| && raws[i] != ""
    && codec.decode(kind, raws[i]).Some? && codec.decode(kind, raws[i]).value.name == name
  }

  predicate GivesLast(codec: Codec, kind: Kind, raws: seq<string>, name: string, i: nat) {
    Gives(codec, kind, raws, name, i) && forall j: nat | i < j < |raws| :: !Gives(codec, kind, raws, name, j)
  }

  /**
   * All specs decode; the map holds exactly the names that some spec gives, and under each name what
   * the last such spec decodes to.
   */
  ghost predicate Holds(codec: Codec, kind: Kind, raws: seq<string>, m: map<string, Resource>) {
    && Decodes(codec, kind, raws)
    && (forall name :: name in m <==> exists i: nat :: Gives(codec, kind, raws, name, i))
    && (forall name, i: nat :: GivesLast(codec, kind, raws, name, i) ==>
          name in m && Some(m[name]) == codec.decode(kind, raws[i]))
  }

  /** Each map of the snapshot holds the specs of its own kind. */
  ghost predicate Serves(codec: Codec, specs: Specs, s: Snapshot) {
    && Holds(codec, ListenerKind, specs.listeners, s.listeners)
    && Holds(codec, ClusterKind, specs.clusters, s.clusters)
    && Holds(codec, RouteKind, specs.routes, s.routes)
    && Holds(codec, ScopedRouteKind, specs.scopedRoutes, s.scopedRoutes)
    && Holds(codec, EndpointKind, specs.endpoints, s.endpoints)
  }

  predicate BadAt(codec: Codec, kind: Kind, raws: seq<string>, i: nat) {
    && i < |raws| && raws[i] != "" && codec.decode(kind, raws[i]).None?
    && Decodes(codec, kind, raws[..i])
  }

  /** The first spec that does not decode, in the order listeners, clusters, routes, scoped routes, endpoints. */
  predicate FirstBad(codec: Codec, specs: Specs, kind: Kind, i: nat) {
    && (kind == ListenerKind ==> BadAt(codec, kind, specs.listeners, i))
    && (kind != ListenerKind ==> Decodes(codec, ListenerKind, specs.listeners))
    && (kind == ClusterKind ==> BadAt(codec, kind, specs.clusters, i))
    && (kind in {RouteKind, ScopedRouteKind, EndpointKind} ==> Decodes(codec, ClusterKind, specs.clusters))
    && (kind == RouteKind ==> BadAt(codec, kind, specs.routes, i))
    && (kind in {ScopedRouteKind, EndpointKind} ==> Decodes(codec, RouteKind, specs.routes))
    && (kind == ScopedRouteKind ==> BadAt(codec, kind, specs.scopedRoutes, i))
    && (kind == EndpointKind ==> Decodes(codec, ScopedRouteKind, specs.scopedRoutes)
                                 && BadAt(codec, kind, specs.endpoints, i))
  }

  /** The map has the name exactly if a spec gives it, and then what the last such spec decodes to. */
  ghost predicate NameOk(codec: Codec, kind: Kind, raws: seq<string>, m: map<string, Resource>, name: string) {
    && (name in m <==> exists i: nat :: Gives(codec, kind, raws, name, i))
    && (forall i: nat :: GivesLast(codec, kind, raws, name, i) ==>
          name in m && Some(m[name]) == codec.decode(kind, raws[i]))
  }

  lemma {:induction false} IndexHolds(codec: Codec, kind: Kind, raws: seq<string>)
    requires DecodeAll(codec, kind, raws).Resources?
    ensures Holds(codec, kind, raws, Index(DecodeAll(codec, kind, raws).resources))
  {
    DecodeAllOrNothing(codec, kind, raws);
    var m := Index(DecodeAll(codec, kind, raws).resources);
    forall name ensures NameOk(codec, kind, raws, m, name) {
      NameHolds(codec, kind, raws, name);
    }
    assert forall name :: name in m <==> exists i: nat :: Gives(codec, kind, raws, name, i) by {
      forall name ensures name in m <==> exists i: nat :: Gives(codec, kind, raws, name, i) {
        assert NameOk(codec, kind, raws, m, name);
      }
    }
    forall name, i: nat | GivesLast(codec, kind, raws, name, i)
      ensures name in m && Some(m[name]) == codec.decode(kind, raws[i])
    {
      assert NameOk(codec, kind, raws, m, name);
    }
  }

  lemma {:induction false} NameHolds(codec: Codec, kind: Kind, raws: seq<string>, name: string)
    requires DecodeAll(codec, kind, raws).Resources?
    ensures NameOk(codec, kind, raws, Index(DecodeAll(codec, kind, raws).resources), name)
    decreases |raws|
  {
    if raws != [] {
      var n := |raws| - 1;
      IndexNext(codec, kind, raws);
      NameHolds(codec, kind, raws[..n], name);
      NextSpec(codec, kind, raws, Index(DecodeAll(codec, kind, raws[..n]).resources), name);
    }
  }

  /** One more spec: if it gives the name it is the last one to do so. */
  lemma {:induction false} NextSpec(codec: Codec, kind: Kind, raws: seq<string>, m: map<string, Resource>, name: string)
    requires raws != [] && NameOk(codec, kind, raws[..|raws| - 1], m, name)
    requires raws[|raws| - 1] != "" ==> codec.decode(kind, raws[|raws| - 1]).Some?
    ensures NameOk(codec, kind, raws, Extended(codec, kind, m, raws[|raws| - 1]), name)
  {
    var n, init, m' := |raws| - 1, raws[..|raws| - 1], Extended(codec, kind, m, raws[|raws| - 1]);
    forall i: nat | i < n ensures Gives(codec, kind, raws, name, i) <==> Gives(codec, kind, init, name, i) {
      assert init[i] == raws[i];
    }
    if Gives(codec, kind, raws, name, n) {
      forall i: nat | GivesLast(codec, kind, raws, name, i) ensures i == n {
      }
    } else {
      forall i: nat | GivesLast(codec, kind, raws, name, i) ensures i < n && GivesLast(codec, kind, init, name, i) {
      }
      if exists i: nat :: Gives(codec, kind, init, name, i) {
        var i: nat :| Gives(codec, kind, init, name, i);
        assert Gives(codec, kind, raws, name, i);
      }
    }
  }

  /** The map with what one more spec decodes to. */
  function Extended(codec: Codec, kind: Kind, m: map<string, Resource>, raw: string): map<string, Resource>
    requires raw != "" ==> codec.decode(kind, raw).Some?
  {
    if raw == "" then m else m[codec.decode(kind, raw).value.name := codec.decode(kind, raw).value]
  }

  lemma IndexNext(codec: Codec, kind: Kind, raws: seq<string>)
    requires raws != [] && DecodeAll(codec, kind, raws).Resources?
    ensures var n := |raws| - 1;
            && DecodeAll(codec, kind, raws[..n]).Resources?
            && (raws[n] != "" ==> codec.decode(kind, raws[n]).Some?)
            && Index(DecodeAll(codec, kind, raws).resources)
               == Extended(codec, kind, Index(DecodeAll(codec, kind, raws[..n]).resources), raws[n])
  {
    var n := |raws| - 1;
    var rs := DecodeAll(codec, kind, raws[..n]).resources;
    if raws[n] != "" {
      var r := codec.decode(kind, raws[n]).value;
      assert (rs + [r])[..|rs|] == rs;
    }
  }

  /** What there is in the snapshot, or why there is none. */
  lemma {:induction false} BuildDescribed(codec: Codec, version: string, specs: Specs)
    ensures match BuildOf(codec, version, specs)
            case Built(s) => Serves(codec, specs, s) && s.version == version
            case Failed(kind, i) => FirstBad(codec, specs, kind, i)
  {
    DecodeAllOrNothing(codec, ListenerKind, specs.listeners);
    DecodeAllOrNothing(codec, ClusterKind, specs.clusters);
    DecodeAllOrNothing(codec, RouteKind, specs.routes);
    DecodeAllOrNothing(codec, ScopedRouteKind, specs.scopedRoutes);
    DecodeAllOrNothing(codec, EndpointKind, specs.endpoints);
    if BuildOf(codec, version, specs).Built? {
      IndexHolds(codec, ListenerKind, specs.listeners);
      IndexHolds(codec, ClusterKind, specs.clusters);
      IndexHolds(codec, RouteKind, specs.routes);
      IndexHolds(codec, ScopedRouteKind, specs.scopedRoutes);
      IndexHolds(codec, EndpointKind, specs.endpoints);
    }
  }

  function BuildOf(codec: Codec, version: string, specs: Specs): Build {
    var l := DecodeAll(codec, ListenerKind, specs.listeners);
    var c := DecodeAll(codec, ClusterKind, specs.clusters);
    var r := DecodeAll(codec, RouteKind, specs.routes);
    var s := DecodeAll(codec, ScopedRouteKind, specs.scopedRoutes);
    var e := DecodeAll(codec, EndpointKind, specs.endpoints);
    if l.BadItem? then Failed(ListenerKind, l.index)
    else if c.BadItem? then Failed(ClusterKind, c.index)
    else if r.BadItem? then Failed(RouteKind, r.index)
    else if s.BadItem? then Failed(ScopedRouteKind, s.index)
    else if e.BadItem? then Failed(EndpointKind, e.index)
    else Built(Snapshot(version, Index(l.resources), Index(c.resources), Index(r.resources), Index(s.resources),
                        Index(e.resources)))
  }

  /** There is a snapshot exactly when every non-empty spec of every kind decodes. */
  lemma AllOrNothing(codec: Codec, version: string, specs: Specs)
    ensures BuildOf(codec, version, specs).Built? <==> forall kind :: Decodes(codec, kind, SpecsOf(specs, kind))
  {
    forall kind
      ensures DecodeAll(codec, kind, SpecsOf(specs, kind)).Resources? <==> Decodes(codec, kind, SpecsOf(specs, kind))
    {
      DecodeAllOrNothing(codec, kind, SpecsOf(specs, kind));
    }
    assert SpecsOf(specs, ListenerKind) == specs.listeners && SpecsOf(specs, ClusterKind) == specs.clusters;
    assert SpecsOf(specs, RouteKind) == specs.routes && SpecsOf(specs, ScopedRouteKind) == specs.scopedRoutes;
    assert SpecsOf(specs, EndpointKind) == specs.endpoints;
  }
}
