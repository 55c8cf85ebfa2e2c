/**
 * What is served to a proxy, from the fields of the objects in the world to the maps of its snapshot,
 * stated by selection and position and without the functions that compute it.
 */
module Served {
  import opened Options
  import opened Selections
  import opened Mesh
  import opened Eds
  import opened Snapshots
  import opened Collect
  import opened Coherence

  // ----- The specs that a world has for a proxy -----

  /** The specs of the items for the proxy, in order. */
  ghost predicate ItemSpecs(items: seq<Item>, proxy: Key, raws: seq<string>) {
    exists l :: Selected(items, For(proxy), l) && SpecsIn(l, raws)
  }

  predicate SpecsIn(l: seq<Item>, raws: seq<string>) {
    |raws| == |l| && forall i | 0 <= i < |l| :: raws[i] == l[i].spec
  }

  /** The spec is a JSON object whose member `name` is the given text. */
  predicate NameMember(codec: Codec, raw: string, name: string) {
    && raw != "" && codec.parse(raw).Some? && codec.parse(raw).value.Obj?
    && "name" in codec.parse(raw).value.members && codec.parse(raw).value.members["name"].Str?
    && codec.parse(raw).value.members["name"].s == name
  }

  /** An assignment for the proxy has the name. */
  ghost predicate Claimed(codec: Codec, w: World, proxy: Key, name: string) {
    exists a :: a in w.assignments && For(proxy)(a) && NameMember(codec, a.spec, name)
  }

  /** Clusters for the proxy that have a Service and a name that no assignment for the proxy has. */
  ghost function Needs(codec: Codec, w: World, proxy: Key): Item -> bool {
    (c: Item) => For(proxy)(c) && c.serviceRef.Some? && NeedsName(codec, w, proxy, c)
  }

  ghost predicate NeedsName(codec: Codec, w: World, proxy: Key, c: Item) {
    exists name :: name != "" && NameMember(codec, c.spec, name) && !Claimed(codec, w, proxy, name)
  }

  /** The assignment of a cluster: under its name, the endpoints in the slices its Service reference asks for. */
  ghost predicate AssignmentOf(codec: Codec, w: World, c: Item, cla: Assignment)
    requires c.serviceRef.Some?
  {
    exists name, slices ::
      && NameMember(codec, c.spec, name) && Selected(w.slices, AskedBy(c), slices)
      && Synthesis(cla, name, slices, c.serviceRef.value.port)
  }

  /** The spec is the assignment of the cluster, marshalled. */
  ghost predicate MadeFor(codec: Codec, w: World, c: Item, raw: string) {
    c.serviceRef.Some? && exists cla :: AssignmentOf(codec, w, c, cla) && codec.marshal(cla) == Some(raw)
  }

  /** The assignments for the proxy, and after them one for each cluster that needs one. */
  ghost predicate EndpointSpecs(codec: Codec, w: World, proxy: Key, raws: seq<string>) {
    exists manual, cs ::
      && Selected(w.assignments, For(proxy), manual) && Selected(w.clusters, Needs(codec, w, proxy), cs)
      && ManualThenMade(codec, w, manual, cs, raws)
  }

  ghost predicate AllMadeFor(codec: Codec, w: World, cs: seq<Item>, made: seq<string>) {
    |made| == |cs| && forall j | 0 <= j < |cs| :: MadeFor(codec, w, cs[j], made[j])
  }

  ghost predicate ManualThenMade(codec: Codec, w: World, manual: seq<Item>, cs: seq<Item>, raws: seq<string>) {
    && |manual| <= |raws| && SpecsIn(manual, raws[..|manual|])
    && AllMadeFor(codec, w, cs, raws[|manual|..])
  }

  ghost predicate SpecsFor(codec: Codec, w: World, proxy: Key, specs: Specs) {
    && ItemSpecs(w.listeners, proxy, specs.listeners) && ItemSpecs(w.clusters, proxy, specs.clusters)
    && ItemSpecs(w.routes, proxy, specs.routes) && ItemSpecs(w.scopedRoutes, proxy, specs.scopedRoutes)
    && EndpointSpecs(codec, w, proxy, specs.endpoints)
  }

  /** Each map of the snapshot holds what the world has of its kind for the proxy. */
  ghost predicate ServesWorld(codec: Codec, w: World, proxy: Key, s: Snapshot) {
    exists specs :: SpecsFor(codec, w, proxy, specs) && Serves(codec, specs, s)
  }

  // ----- There is only one such list of specs, and one such snapshot -----

  lemma {:induction false} ItemSpecsUnique(items: seq<Item>, proxy: Key, a: seq<string>, b: seq<string>)
    requires ItemSpecs(items, proxy, a) && ItemSpecs(items, proxy, b)
    ensures a == b
  {
    var l :| Selected(items, For(proxy), l) && SpecsIn(l, a);
    var m :| Selected(items, For(proxy), m) && SpecsIn(m, b);
    SelectionUnique(items, For(proxy), l, m);
  }

  lemma {:induction false} AssignmentUnique(codec: Codec, w: World, c: Item, a: Assignment, b: Assignment)
    requires c.serviceRef.Some? && AssignmentOf(codec, w, c, a) && AssignmentOf(codec, w, c, b)
    ensures a == b
  {
    var port := c.serviceRef.value.port;
    var name, slices :| NameMember(codec, c.spec, name) && Selected(w.slices, AskedBy(c), slices)
                        && Synthesis(a, name, slices, port);
    var other, others :| NameMember(codec, c.spec, other) && Selected(w.slices, AskedBy(c), others)
                         && Synthesis(b, other, others, port);
    SelectionUnique(w.slices, AskedBy(c), slices, others);
    SynthesisUnique(a, b, name, slices, port);
  }

  lemma MadeUnique(codec: Codec, w: World, c: Item, x: string, y: string)
    requires MadeFor(codec, w, c, x) && MadeFor(codec, w, c, y)
    ensures x == y
  {
    var a :| AssignmentOf(codec, w, c, a) && codec.marshal(a) == Some(x);
    var b :| AssignmentOf(codec, w, c, b) && codec.marshal(b) == Some(y);
    AssignmentUnique(codec, w, c, a, b);
  }

  lemma {:induction false} EndpointSpecsUnique(codec: Codec, w: World, proxy: Key, a: seq<string>, b: seq<string>)
    requires EndpointSpecs(codec, w, proxy, a) && EndpointSpecs(codec, w, proxy, b)
    ensures a == b
  {
    var manual, cs :| Selected(w.assignments, For(proxy), manual) && Selected(w.clusters, Needs(codec, w, proxy), cs)
                      && ManualThenMade(codec, w, manual, cs, a);
    var manual', cs' :| Selected(w.assignments, For(proxy), manual')
                        && Selected(w.clusters, Needs(codec, w, proxy), cs')
                        && ManualThenMade(codec, w, manual', cs', b);
    SelectionUnique(w.assignments, For(proxy), manual, manual');
    SelectionUnique(w.clusters, Needs(codec, w, proxy), cs, cs');
    SameManualThenMade(codec, w, manual, cs, a, b);
  }

  lemma {:induction false} SameManualThenMade(codec: Codec, w: World, manual: seq<Item>, cs: seq<Item>, a: seq<string>,
                                              b: seq<string>)
    requires ManualThenMade(codec, w, manual, cs, a) && ManualThenMade(codec, w, manual, cs, b)
    ensures a == b
  {
    var n := |manual|;
    SameSpecs(manual, a[..n], b[..n]);
    SameMade(codec, w, cs, a[n..], b[n..]);
    SameHalves(a, b, n);
  }

  lemma SameSpecs(l: seq<Item>, a: seq<string>, b: seq<string>)
    requires SpecsIn(l, a) && SpecsIn(l, b)
    ensures a == b
  {
  }

  lemma SameHalves(a: seq<string>, b: seq<string>, n: nat)
    requires n <= |a| && n <= |b| && a[..n] == b[..n] && a[n..] == b[n..]
    ensures a == b
  {
    assert a == a[..n] + a[n..] && b == b[..n] + b[n..];
  }

  lemma {:induction false} SameMade(codec: Codec, w: World, cs: seq<Item>, a: seq<string>, b: seq<string>)
    requires AllMadeFor(codec, w, cs, a) && AllMadeFor(codec, w, cs, b)
    ensures a == b
  {
    forall j | 0 <= j < |cs| ensures a[j] == b[j] {
      MadeUnique(codec, w, cs[j], a[j], b[j]);
    }
  }

  lemma {:induction false} SpecsUnique(codec: Codec, w: World, proxy: Key, a: Specs, b: Specs)
    requires SpecsFor(codec, w, proxy, a) && SpecsFor(codec, w, proxy, b)
    ensures a == b
  {
    ItemSpecsUnique(w.listeners, proxy, a.listeners, b.listeners);
    ItemSpecsUnique(w.clusters, proxy, a.clusters, b.clusters);
    ItemSpecsUnique(w.routes, proxy, a.routes, b.routes);
    ItemSpecsUnique(w.scopedRoutes, proxy, a.scopedRoutes, b.scopedRoutes);
    EndpointSpecsUnique(codec, w, proxy, a.endpoints, b.endpoints);
  }

  /** The description is complete: with the version it determines the snapshot. */
  lemma {:induction false} ServedUnique(codec: Codec, w: World, proxy: Key, s: Snapshot, t: Snapshot)
    requires ServesWorld(codec, w, proxy, s) && ServesWorld(codec, w, proxy, t) && s.version == t.version
    ensures s == t
  {
    var a :| SpecsFor(codec, w, proxy, a) && Serves(codec, a, s);
    var b :| SpecsFor(codec, w, proxy, b) && Serves(codec, b, t);
    SpecsUnique(codec, w, proxy, a, b);
    ServesUnique(codec, a, s, t);
  }

  lemma {:induction false} ServesUnique(codec: Codec, specs: Specs, s: Snapshot, t: Snapshot)
    requires Serves(codec, specs, s) && Serves(codec, specs, t) && s.version == t.version
    ensures s == t
  {
    HoldsUnique(codec, ListenerKind, specs.listeners, s.listeners, t.listeners);
    HoldsUnique(codec, ClusterKind, specs.clusters, s.clusters, t.clusters);
    HoldsUnique(codec, RouteKind, specs.routes, s.routes, t.routes);
    HoldsUnique(codec, ScopedRouteKind, specs.scopedRoutes, s.scopedRoutes, t.scopedRoutes);
    HoldsUnique(codec, EndpointKind, specs.endpoints, s.endpoints, t.endpoints);
  }

  lemma {:induction false} HoldsUnique(codec: Codec, kind: Kind, raws: seq<string>, m: map<string, Resource>,
                                       n: map<string, Resource>)
    requires Holds(codec, kind, raws, m) && Holds(codec, kind, raws, n)
    ensures m == n
  {
    forall name ensures name in m <==> name in n ensures name in m ==> m[name] == n[name] {
      if name in m {
        var i: nat :| Gives(codec, kind, raws, name, i);
        var last := LastGiver(codec, kind, raws, name, i);
      }
    }
  }

  lemma {:induction false} LastGiver(codec: Codec, kind: Kind, raws: seq<string>, name: string, i: nat)
    returns (last: nat)
    requires Gives(codec, kind, raws, name, i)
    ensures GivesLast(codec, kind, raws, name, last)
    decreases |raws| - i
  {
    if j: nat :| i < j < |raws| && Gives(codec, kind, raws, name, j) {
      last := LastGiver(codec, kind, raws, name, j);
    } else {
      last := i;
    }
  }

  // ----- A pass serves them -----

  lemma NameMemberIs(codec: Codec, raw: string, name: string)
    requires name != ""
    ensures NameMember(codec, raw, name) <==> ClusterName(codec, raw) == name
  {
  }

  lemma {:induction false} ItemsCollected(items: seq<Item>, proxy: Key)
    ensures ItemSpecs(items, proxy, SpecList(Matching(items, proxy)))
  {
    MatchingIsSelection(items, proxy);
    assert SpecsIn(Matching(items, proxy), SpecList(Matching(items, proxy)));
  }

  lemma {:induction false} ClaimedIs(codec: Codec, w: World, proxy: Key, name: string)
    requires name != ""
    ensures Claimed(codec, w, proxy, name) <==> name in ManualNames(Lookup(codec), Matching(w.assignments, proxy))
  {
    var manual := Matching(w.assignments, proxy);
    forall a ensures a in manual <==> a in w.assignments && For(proxy)(a) {
      MatchingHolds(w.assignments, proxy, a);
    }
    forall a: Item ensures NameMember(codec, a.spec, name) <==> Lookup(codec)(a.spec) == name {
      NameMemberIs(codec, a.spec, name);
    }
  }

  lemma {:induction false} NeedsIs(codec: Codec, w: World, proxy: Key, c: Item)
    ensures Needs(codec, w, proxy)(c) <==>
              && TargetMatches(c.targetRef, c.namespace, proxy)
              && Synthesises(codec, c, ManualNames(Lookup(codec), Matching(w.assignments, proxy)))
  {
    NeedsNameIs(codec, w, proxy, c);
    assert For(proxy)(c) <==> TargetMatches(c.targetRef, c.namespace, proxy);
  }

  lemma {:induction false} NeedsNameIs(codec: Codec, w: World, proxy: Key, c: Item)
    ensures var name := ClusterName(codec, c.spec);
            NeedsName(codec, w, proxy, c)
            <==> name != "" && name !in ManualNames(Lookup(codec), Matching(w.assignments, proxy))
  {
    var name := ClusterName(codec, c.spec);
    if name != "" {
      NameMemberIs(codec, c.spec, name);
      ClaimedIs(codec, w, proxy, name);
    }
    if NeedsName(codec, w, proxy, c) {
      var other :| other != "" && NameMember(codec, c.spec, other) && !Claimed(codec, w, proxy, other);
      NameMemberIs(codec, c.spec, other);
    }
  }

  lemma {:induction false} NeedyCollected(codec: Codec, w: World, proxy: Key, items: seq<Item>)
    ensures Selected(items, Needs(codec, w, proxy),
                     SynthesisedClusters(codec, Matching(items, proxy),
                                         ManualNames(Lookup(codec), Matching(w.assignments, proxy))))
  {
    var keep, names := Needs(codec, w, proxy), ManualNames(Lookup(codec), Matching(w.assignments, proxy));
    if items == [] {
      NothingSelected(keep);
    } else {
      var n := |items| - 1;
      var c, before := items[n], Matching(items[..n], proxy);
      NeedyCollected(codec, w, proxy, items[..n]);
      NeedsIs(codec, w, proxy, c);
      SelectNext(items[..n], keep, SynthesisedClusters(codec, before, names), c);
      assert items == items[..n] + [c];
      var cs := SynthesisedClusters(codec, before, names);
      assert (before + [c])[..|before|] == before && cs + [] == cs && before + [] == before;
    }
  }

  lemma {:induction false} MadeIsFor(codec: Codec, w: World, c: Item)
    requires c.serviceRef.Some? && ClusterName(codec, c.spec) != ""
    ensures AssignmentOf(codec, w, c, AssignmentMade(codec, w, c))
  {
    var name, slices := ClusterName(codec, c.spec), SlicesOf(w.slices, ServiceOf(c));
    NameMemberIs(codec, c.spec, name);
    SlicesListedForCluster(w.slices, c);
    SynthesizedIsSynthesis(name, slices, c.serviceRef.value.port);
  }

  function AssignmentMade(codec: Codec, w: World, c: Item): Assignment
    requires c.serviceRef.Some?
  {
    Synthesized(ClusterName(codec, c.spec), SlicesOf(w.slices, ServiceOf(c)), c.serviceRef.value.port)
  }

  ghost predicate OneFails(codec: Codec, w: World, cs: seq<Item>) {
    exists c :: c in cs && c.serviceRef.Some? && codec.marshal(AssignmentMade(codec, w, c)) == None
  }

  /** Every cluster's assignment marshals, or one does not. */
  ghost predicate MadeOrNot(codec: Codec, w: World, cs: seq<Item>, made: Option<seq<string>>) {
    if made.Some? then AllMadeFor(codec, w, cs, made.value) else OneFails(codec, w, cs)
  }

  lemma {:induction false} AllMade(codec: Codec, w: World, cs: seq<Item>)
    requires forall c <- cs :: c.serviceRef.Some? && ClusterName(codec, c.spec) != ""
    ensures MadeOrNot(codec, w, cs, SynthesisedFrom(codec, cs, w.slices))
    decreases |cs|
  {
    if cs == [] {
      assert SynthesisedFrom(codec, cs, w.slices) == Some([]);
    } else {
      var init, c := cs[..|cs| - 1], cs[|cs| - 1];
      assert cs == init + [c] && c in cs;
      AllMade(codec, w, init);
      OneMoreMade(codec, w, init, c);
    }
  }

  lemma {:induction false} OneMoreMade(codec: Codec, w: World, cs: seq<Item>, c: Item)
    requires (forall x <- cs :: x.serviceRef.Some?) && c.serviceRef.Some? && ClusterName(codec, c.spec) != ""
    requires MadeOrNot(codec, w, cs, SynthesisedFrom(codec, cs, w.slices))
    ensures MadeOrNot(codec, w, cs + [c], SynthesisedFrom(codec, cs + [c], w.slices))
  {
    var before := SynthesisedFrom(codec, cs, w.slices);
    OneMoreSynthesised(codec, cs, c, w.slices);
    assert MarshalFor(codec, c, w.slices) == codec.marshal(AssignmentMade(codec, w, c));
    MadeIsFor(codec, w, c);
    if before.None? {
      var x :| x in cs && x.serviceRef.Some? && codec.marshal(AssignmentMade(codec, w, x)) == None;
      assert x in cs + [c];
    } else {
      assert c in cs + [c];
    }
  }

  /** No specs: the assignment of a cluster that needs one does not marshal. */
  ghost predicate Unmarshalled(codec: Codec, w: World, proxy: Key) {
    exists c, cla ::
      && c in w.clusters && Needs(codec, w, proxy)(c) && c.serviceRef.Some? && AssignmentOf(codec, w, c, cla)
      && codec.marshal(cla) == None
  }

  lemma {:induction false} EndpointsCollected(codec: Codec, w: World, proxy: Key)
    ensures match EndpointsOf(codec, ReadAll(codec, w, proxy))
            case Collected(raws, _) => EndpointSpecs(codec, w, proxy, raws)
            case MarshalError => Unmarshalled(codec, w, proxy)
  {
    var r := ReadAll(codec, w, proxy);
    var manual, cs := r.assignments, Synthesising(codec, r.clusters, r.assignments);
    MatchingIsSelection(w.assignments, proxy);
    NeedyCollected(codec, w, proxy, w.clusters);
    AllMade(codec, w, cs);
    match SynthesisedFrom(codec, cs, w.slices)
    case Some(made) => AfterManual(codec, w, manual, cs, made);
    case None => FailureFound(codec, w, proxy, cs);
  }

  lemma AfterManual(codec: Codec, w: World, manual: seq<Item>, cs: seq<Item>, made: seq<string>)
    requires AllMadeFor(codec, w, cs, made)
    ensures ManualThenMade(codec, w, manual, cs, SpecList(manual) + made)
  {
    var raws := SpecList(manual) + made;
    assert raws[..|manual|] == SpecList(manual) && raws[|manual|..] == made;
  }

  lemma {:induction false} FailureFound(codec: Codec, w: World, proxy: Key, cs: seq<Item>)
    requires Selected(w.clusters, Needs(codec, w, proxy), cs) && OneFails(codec, w, cs)
    requires forall c <- cs :: c.serviceRef.Some? && ClusterName(codec, c.spec) != ""
    ensures Unmarshalled(codec, w, proxy)
  {
    var c :| c in cs && c.serviceRef.Some? && codec.marshal(AssignmentMade(codec, w, c)) == None;
    SameElements(w.clusters, Needs(codec, w, proxy), cs, c);
    MadeIsFor(codec, w, c);
  }

  /** What becomes of a world for a proxy, in each of the three outcomes. */
  ghost predicate Describes(codec: Codec, w: World, proxy: Key, out: Outcome) {
    match out
    case Good(s) => ServesWorld(codec, w, proxy, s)
    case BadSpec(kind, i) => exists specs :: SpecsFor(codec, w, proxy, specs) && FirstBad(codec, specs, kind, i)
    case BadMarshal => Unmarshalled(codec, w, proxy)
  }

  /**
   * From the objects to what is served: under each kind the snapshot holds exactly what the specs of
   * that kind for the proxy decode to, endpoints of clusters with a Service included; or the outcome
   * names the first spec that does not decode, or an assignment does not marshal.
   */
  lemma {:induction false} FromScratchServes(codec: Codec, w: World, proxy: Key)
    ensures Describes(codec, w, proxy, FromScratch(codec, w, proxy))
  {
    var r := ReadAll(codec, w, proxy);
    EndpointsCollected(codec, w, proxy);
    match EndpointsOf(codec, r)
    case MarshalError =>
    case Collected(raws, versions) =>
      var specs := SpecsRead(codec, r);
      ItemsCollected(w.listeners, proxy);
      ItemsCollected(w.clusters, proxy);
      ItemsCollected(w.routes, proxy);
      ItemsCollected(w.scopedRoutes, proxy);
      assert SpecsFor(codec, w, proxy, specs);
      BuildDescribed(codec, codec.digest(HashInput(r, versions)), specs);
  }

  ghost predicate AllDecode(codec: Codec, specs: Specs) {
    && Decodes(codec, ListenerKind, specs.listeners) && Decodes(codec, ClusterKind, specs.clusters)
    && Decodes(codec, RouteKind, specs.routes) && Decodes(codec, ScopedRouteKind, specs.scopedRoutes)
    && Decodes(codec, EndpointKind, specs.endpoints)
  }

  /** A proxy builds exactly when the assignments it needs marshal and every spec for it decodes. */
  lemma {:induction false} BuildsIff(codec: Codec, w: World, proxy: Key)
    ensures FromScratch(codec, w, proxy).Good?
            <==> exists specs :: SpecsFor(codec, w, proxy, specs) && AllDecode(codec, specs)
  {
    FromScratchServes(codec, w, proxy);
    if FromScratch(codec, w, proxy).Good? {
      var specs :| SpecsFor(codec, w, proxy, specs) && Serves(codec, specs, FromScratch(codec, w, proxy).snapshot);
      assert AllDecode(codec, specs);
    }
    if specs :| SpecsFor(codec, w, proxy, specs) && AllDecode(codec, specs) {
      OnlyGoodFits(codec, w, proxy, specs, FromScratch(codec, w, proxy));
    }
  }

  lemma {:induction false} OnlyGoodFits(codec: Codec, w: World, proxy: Key, specs: Specs, out: Outcome)
    requires SpecsFor(codec, w, proxy, specs) && AllDecode(codec, specs) && Describes(codec, w, proxy, out)
    ensures out.Good?
  {
    NotUnmarshalled(codec, w, proxy, specs.endpoints);
    if out.BadSpec? {
      var others :| SpecsFor(codec, w, proxy, others) && FirstBad(codec, others, out.kind, out.index);
      SpecsUnique(codec, w, proxy, specs, others);
      NoneBad(codec, specs, out.kind, out.index);
    }
  }

  lemma NoneBad(codec: Codec, specs: Specs, kind: Kind, i: nat)
    requires AllDecode(codec, specs)
    ensures !FirstBad(codec, specs, kind, i)
  {
  }

  lemma {:induction false} NotUnmarshalled(codec: Codec, w: World, proxy: Key, raws: seq<string>)
    requires EndpointSpecs(codec, w, proxy, raws)
    ensures !Unmarshalled(codec, w, proxy)
  {
    var manual, cs :| Selected(w.assignments, For(proxy), manual) && Selected(w.clusters, Needs(codec, w, proxy), cs)
                      && ManualThenMade(codec, w, manual, cs, raws);
    forall c, cla | c in w.clusters && Needs(codec, w, proxy)(c) && c.serviceRef.Some? && AssignmentOf(codec, w, c, cla)
      ensures codec.marshal(cla) != None
    {
      SameElements(w.clusters, Needs(codec, w, proxy), cs, c);
      var j :| 0 <= j < |cs| && cs[j] == c;
      var mine :| AssignmentOf(codec, w, c, mine) && codec.marshal(mine) == Some(raws[|manual|..][j]);
      AssignmentUnique(codec, w, c, cla, mine);
    }
  }

  // ----- By position in the lists of the world -----

  /** Item `i` is for the proxy, and its spec decodes to a resource of the name. */
  predicate ItemGives(codec: Codec, kind: Kind, items: seq<Item>, proxy: Key, name: string, i: nat) {
    && i < |items| && For(proxy)(items[i]) && items[i].spec != ""
    && codec.decode(kind, items[i].spec).Some? && codec.decode(kind, items[i].spec).value.name == name
  }

  predicate ItemGivesLast(codec: Codec, kind: Kind, items: seq<Item>, proxy: Key, name: string, i: nat) {
    && ItemGives(codec, kind, items, proxy, name, i)
    && forall j: nat | i < j < |items| :: !ItemGives(codec, kind, items, proxy, name, j)
  }

  /** A name is served exactly if an item for the proxy decodes to it, and then as the last such item says. */
  ghost predicate HoldsItems(codec: Codec, kind: Kind, items: seq<Item>, proxy: Key, m: map<string, Resource>) {
    && (forall name :: name in m <==> exists i: nat :: ItemGives(codec, kind, items, proxy, name, i))
    && (forall name, i: nat :: ItemGivesLast(codec, kind, items, proxy, name, i) ==>
          name in m && Some(m[name]) == codec.decode(kind, items[i].spec))
  }

  /** The item at a picked position gives what its spec gives. */
  lemma PickedGives(codec: Codec, kind: Kind, items: seq<Item>, proxy: Key, ps: seq<nat>, l: seq<Item>,
                    raws: seq<string>, name: string, n: nat)
    requires Picks(items, For(proxy), ps, l) && SpecsIn(l, raws) && n < |ps|
    ensures ps[n] < |items|
    ensures Gives(codec, kind, raws, name, n) <==> ItemGives(codec, kind, items, proxy, name, ps[n])
  {
  }

  lemma {:induction false} SpecsByPosition(codec: Codec, kind: Kind, items: seq<Item>, proxy: Key, raws: seq<string>,
                                           m: map<string, Resource>)
    requires ItemSpecs(items, proxy, raws) && Holds(codec, kind, raws, m)
    ensures HoldsItems(codec, kind, items, proxy, m)
  {
    forall name ensures name in m <==> exists i: nat :: ItemGives(codec, kind, items, proxy, name, i) {
      NameByPosition(codec, kind, items, proxy, raws, name);
      assert name in m <==> exists n: nat :: Gives(codec, kind, raws, name, n);
    }
    forall name, i: nat | ItemGivesLast(codec, kind, items, proxy, name, i)
      ensures name in m && Some(m[name]) == codec.decode(kind, items[i].spec)
    {
      var n := LastPicked(codec, kind, items, proxy, raws, name, i);
    }
  }

  lemma {:induction false} NameByPosition(codec: Codec, kind: Kind, items: seq<Item>, proxy: Key, raws: seq<string>,
                                          name: string)
    requires ItemSpecs(items, proxy, raws)
    ensures (exists n: nat :: Gives(codec, kind, raws, name, n))
            <==> exists i: nat :: ItemGives(codec, kind, items, proxy, name, i)
  {
    if n: nat :| Gives(codec, kind, raws, name, n) {
      var i := ItemOfSpec(codec, kind, items, proxy, raws, name, n);
    }
    if i: nat :| ItemGives(codec, kind, items, proxy, name, i) {
      var n := SpecOfItem(codec, kind, items, proxy, raws, name, i);
    }
  }

  lemma {:induction false} ItemOfSpec(codec: Codec, kind: Kind, items: seq<Item>, proxy: Key, raws: seq<string>,
                                      name: string, n: nat)
    returns (i: nat)
    requires ItemSpecs(items, proxy, raws) && Gives(codec, kind, raws, name, n)
    ensures ItemGives(codec, kind, items, proxy, name, i)
  {
    var l, ps := PickedItems(items, proxy, raws);
    i := ps[n];
    PickedGives(codec, kind, items, proxy, ps, l, raws, name, n);
  }

  lemma {:induction false} SpecOfItem(codec: Codec, kind: Kind, items: seq<Item>, proxy: Key, raws: seq<string>,
                                      name: string, i: nat)
    returns (n: nat)
    requires ItemSpecs(items, proxy, raws) && ItemGives(codec, kind, items, proxy, name, i)
    ensures Gives(codec, kind, raws, name, n)
  {
    var l, ps := PickedItems(items, proxy, raws);
    n := PickedAt(items, proxy, ps, l, i);
    PickedGives(codec, kind, items, proxy, ps, l, raws, name, n);
  }

  lemma PickedItems(items: seq<Item>, proxy: Key, raws: seq<string>) returns (l: seq<Item>, ps: seq<nat>)
    requires ItemSpecs(items, proxy, raws)
    ensures Picks(items, For(proxy), ps, l) && SpecsIn(l, raws)
  {
    l :| Selected(items, For(proxy), l) && SpecsIn(l, raws);
    ps :| Picks(items, For(proxy), ps, l);
  }

  lemma {:induction false} LastPicked(codec: Codec, kind: Kind, items: seq<Item>, proxy: Key, raws: seq<string>,
                                      name: string, i: nat)
    returns (n: nat)
    requires ItemSpecs(items, proxy, raws) && ItemGivesLast(codec, kind, items, proxy, name, i)
    ensures GivesLast(codec, kind, raws, name, n) && raws[n] == items[i].spec
  {
    var l, ps := PickedItems(items, proxy, raws);
    n := PickedAt(items, proxy, ps, l, i);
    PickedGives(codec, kind, items, proxy, ps, l, raws, name, n);
    forall k: nat | n < k < |raws| ensures !Gives(codec, kind, raws, name, k) {
      PickedGives(codec, kind, items, proxy, ps, l, raws, name, k);
    }
  }

  lemma PickedAt(items: seq<Item>, proxy: Key, ps: seq<nat>, l: seq<Item>, i: nat) returns (n: nat)
    requires Picks(items, For(proxy), ps, l) && i < |items| && For(proxy)(items[i])
    ensures n < |ps| && ps[n] == i
  {
    assert i in ps;
    n :| 0 <= n < |ps| && ps[n] == i;
  }

  /** Each Listener, Cluster, route and scoped route for the proxy is served under its own kind, and nothing else is. */
  lemma {:induction false} ServedByPosition(codec: Codec, w: World, proxy: Key, s: Snapshot)
    requires ServesWorld(codec, w, proxy, s)
    ensures HoldsItems(codec, ListenerKind, w.listeners, proxy, s.listeners)
    ensures HoldsItems(codec, ClusterKind, w.clusters, proxy, s.clusters)
    ensures HoldsItems(codec, RouteKind, w.routes, proxy, s.routes)
    ensures HoldsItems(codec, ScopedRouteKind, w.scopedRoutes, proxy, s.scopedRoutes)
  {
    var specs :| SpecsFor(codec, w, proxy, specs) && Serves(codec, specs, s);
    SpecsByPosition(codec, ListenerKind, w.listeners, proxy, specs.listeners, s.listeners);
    SpecsByPosition(codec, ClusterKind, w.clusters, proxy, specs.clusters, s.clusters);
    SpecsByPosition(codec, RouteKind, w.routes, proxy, specs.routes, s.routes);
    SpecsByPosition(codec, ScopedRouteKind, w.scopedRoutes, proxy, specs.scopedRoutes, s.scopedRoutes);
  }

  /**
   * After any run that has nothing left to do, what the cache holds under a proxy's node id is what the
   * world has for the proxy, unless its request was dropped.
   */
  lemma {:induction false} CacheServesWorld(codec: Codec, st: State, steps: seq<Step>, end: State, k: Key)
    requires Initial(st) && Runs(codec, st, steps, end) && k in end.world.proxies && k !in end.missed
    requires end.queue == {} && end.active == map[] && end.inflight == []
    ensures k.name + "." + k.namespace in end.cache
    ensures ServesWorld(codec, end.world, k, end.cache[k.name + "." + k.namespace])
  {
    CacheCoherence(codec, st, steps, end, k);
    FromScratchServes(codec, end.world, k);
  }
}
