/** From watch events to reconcile requests. */
module Watch {
  import opened Mesh

  /** The proxy an xDS resource object references, with the object's namespace as the default. */
  function TargetOf(x: Item): Key {
    Key(x.targetRef.name, if x.targetRef.namespace == "" then x.namespace else x.targetRef.namespace)
  }

  /** An object is mapped to a proxy exactly when the proxy's collection includes it. */
  lemma MappedIffCollected(items: seq<Item>, x: Item, proxy: Key)
    requires x in items
    ensures TargetOf(x) == proxy <==> x in Matching(items, proxy)
  {
    MatchingHolds(items, proxy, x);
  }

  method MapXDSResourceToProxy(x: Item) returns (reqs: seq<Key>)
    ensures |reqs| == 1 && reqs[0].name == x.targetRef.name
    ensures reqs[0].namespace == if x.targetRef.namespace != "" then x.targetRef.namespace else x.namespace
    ensures forall proxy :: proxy in reqs <==> TargetMatches(x.targetRef, x.namespace, proxy)
  {
    var ns := x.targetRef.namespace;
    if ns == "" {
      ns := x.namespace;
    }
    reqs := [Key(x.targetRef.name, ns)];
  }

  /** A cluster for the proxy refers to a Service whose query returns the slice. */
  ghost predicate Feeds(s: Slice, c: Item, proxy: Key) {
    c.serviceRef.Some? && BelongsTo(s, ServiceOf(c)) && TargetMatches(c.targetRef, c.namespace, proxy)
  }

  ghost predicate SliceMapsTo(clusters: seq<Item>, s: Slice, proxy: Key) {
    exists c :: c in clusters && Feeds(s, c, proxy)
  }

  /** On fields: the Cluster refers to the Service in the slice's label, in the slice's namespace. */
  predicate References(c: Item, s: Slice) {
    && c.serviceRef.Some? && "kubernetes.io/service-name" in s.labels
    && c.serviceRef.value.name == s.labels["kubernetes.io/service-name"]
    && (if c.serviceRef.value.namespace == "" then c.namespace == s.namespace
        else c.serviceRef.value.namespace == s.namespace)
  }

  lemma FeedsOnFields(clusters: seq<Item>, s: Slice)
    ensures forall proxy ::
              SliceMapsTo(clusters, s, proxy) <==> exists c :: c in clusters && References(c, s) && For(proxy)(c)
  {
    forall c, proxy ensures Feeds(s, c, proxy) <==> References(c, s) && For(proxy)(c) {
      if c.serviceRef.Some? {
        SlicesListedForCluster([s], c);
        SlicesOfHolds([s], ServiceOf(c), s);
      }
    }
  }

  /** A slice's requests: without duplicates, the proxies with a cluster that the slice feeds. */
  method MapEndpointSliceToProxies(s: Slice, clusters: seq<Item>) returns (reqs: seq<Key>)
    ensures forall i, j | 0 <= i < j < |reqs| :: reqs[i] != reqs[j]
    ensures forall proxy :: proxy in reqs <==> SliceMapsTo(clusters, s, proxy)
    ensures forall proxy :: proxy in reqs <==> exists c :: c in clusters && References(c, s) && For(proxy)(c)
  {
    FeedsOnFields(clusters, s);
    reqs := [];
    if SERVICE_LABEL !in s.labels {
      return;
    }
    var service := s.labels[SERVICE_LABEL];
    var seen: set<Key> := {};
    for i := 0 to |clusters|
      invariant forall k :: k in seen <==> k in reqs
      invariant forall i, j | 0 <= i < j < |reqs| :: reqs[i] != reqs[j]
      invariant forall proxy :: proxy in reqs <==> SliceMapsTo(clusters[..i], s, proxy)
    {
      var c := clusters[i];
      assert clusters[..i + 1] == clusters[..i] + [c];
      assert forall proxy ::
          SliceMapsTo(clusters[..i + 1], s, proxy) <==> SliceMapsTo(clusters[..i], s, proxy) || Feeds(s, c, proxy);
      if c.serviceRef.None? {
        continue;
      }
      var refNS := c.serviceRef.value.namespace;
      if refNS == "" {
        refNS := c.namespace;
      }
      if c.serviceRef.value.name != service || refNS != s.namespace {
        continue;
      }
      var targetNS := c.targetRef.namespace;
      if targetNS == "" {
        targetNS := c.namespace;
      }
      var key := Key(c.targetRef.name, targetNS);
      assert forall proxy :: Feeds(s, c, proxy) <==> proxy == key;
      if key !in seen {
        seen := seen + {key};
        reqs := reqs + [key];
      }
    }
    assert clusters[..|clusters|] == clusters;
  }

  /**
   * The mapping and the collection agree: a slice is mapped to a proxy exactly when a query for one of
   * its clusters returns it.
   */
  lemma SliceMappedIffQueried(clusters: seq<Item>, slices: seq<Slice>, s: Slice, proxy: Key)
    requires s in slices
    ensures SliceMapsTo(clusters, s, proxy)
            <==> exists c :: c in Matching(clusters, proxy) && c.serviceRef.Some? && s in SlicesOf(slices, ServiceOf(c))
  {
    if SliceMapsTo(clusters, s, proxy) {
      var c :| c in clusters && Feeds(s, c, proxy);
      MatchingHolds(clusters, proxy, c);
      SlicesOfHolds(slices, ServiceOf(c), s);
    }
    if exists c :: c in Matching(clusters, proxy) && c.serviceRef.Some? && s in SlicesOf(slices, ServiceOf(c)) {
      var c :| c in Matching(clusters, proxy) && c.serviceRef.Some? && s in SlicesOf(slices, ServiceOf(c));
      MatchingHolds(clusters, proxy, c);
      SlicesOfHolds(slices, ServiceOf(c), s);
      assert Feeds(s, c, proxy);
    }
  }
}
