/** The Kubernetes objects the control plane watches, and how they refer to one another. */
module Mesh {
  import opened Options
  import opened DottedNames
  import opened Selections

  /** A namespaced name, as in reconcile requests. */
  datatype Key = Key(name: string, namespace: string)

  datatype TargetRef = TargetRef(name: string, namespace: string)

  datatype ServiceRef = ServiceRef(name: string, namespace: string, port: Option<int>)

  /** An xDS resource object of any of the five kinds; only Clusters have a `serviceRef`. */
  datatype Item = Item(
    name: string, namespace: string, resourceVersion: string, targetRef: TargetRef,
    serviceRef: Option<ServiceRef>, spec: string)

  datatype Endpoint = Endpoint(ready: Option<bool>, addresses: seq<string>)

  datatype Slice = Slice(
    name: string, namespace: string, resourceVersion: string, labels: map<string, string>,
    ports: seq<Option<int>>, endpoints: seq<Endpoint>)

  /** What Get and List return; the order of each sequence is the order in which List returns it. */
  datatype World = World(
    proxies: set<Key>, listeners: seq<Item>, clusters: seq<Item>, routes: seq<Item>,
    scopedRoutes: seq<Item>, assignments: seq<Item>, slices: seq<Slice>)

  const SERVICE_LABEL := "kubernetes.io/service-name"

  /** The xDS node id of a proxy. */
  function NodeId(key: Key): string {
    key.name + "." + key.namespace
  }

  /** Node ids tell proxies apart, since namespaces have no dots. */
  lemma NodeIdInjective(a: Key, b: Key)
    requires DotFree(a.namespace) && DotFree(b.namespace)
    requires NodeId(a) == NodeId(b)
    ensures a == b
  {
    var id := NodeId(a);
    if |a.name| < |b.name| {
      DotInNamespace(a, b);
    } else if |b.name| < |a.name| {
      DotInNamespace(b, a);
    } else {
      assert a.name == id[..|a.name|] == b.name;
      assert a.namespace == id[|a.name| + 1..] == b.namespace;
    }
  }

  lemma DotInNamespace(a: Key, b: Key)
    requires NodeId(a) == NodeId(b) && |a.name| < |b.name|
    ensures '.' in a.namespace
  {
    assert NodeId(b)[|b.name|] == '.';
    assert NodeId(a)[|b.name|] == a.namespace[|b.name| - |a.name| - 1];
  }

  /** With dots in namespaces, two proxies can share a node id and hence a cache entry. */
  lemma NodeIdCollision()
    ensures NodeId(Key("a.b", "c")) == NodeId(Key("a", "b.c"))
  {
  }

  predicate TargetMatches(ref: TargetRef, itemNamespace: string, proxy: Key) {
    var ns := if ref.namespace == "" then itemNamespace else ref.namespace;
    ref.name == proxy.name && ns == proxy.namespace
  }

  /** The items of a list that target the proxy, in list order. */
  function Matching(items: seq<Item>, proxy: Key): seq<Item> {
    if items == [] then []
    else
      var x := items[|items| - 1];
      Matching(items[..|items| - 1], proxy) + if TargetMatches(x.targetRef, x.namespace, proxy) then [x] else []
  }

  /** Items for a proxy: they name it, and its namespace or, with none given, have the same one. */
  function For(proxy: Key): Item -> bool {
    (x: Item) => x.targetRef.name == proxy.name
                 && (if x.targetRef.namespace == "" then x.namespace == proxy.namespace
                     else x.targetRef.namespace == proxy.namespace)
  }

  /** The collected items are the items for the proxy, all of them and in order. */
  lemma {:induction false} MatchingIsSelection(items: seq<Item>, proxy: Key)
    ensures Selected(items, For(proxy), Matching(items, proxy))
  {
    if items == [] {
      NothingSelected(For(proxy));
    } else {
      var n := |items| - 1;
      MatchingIsSelection(items[..n], proxy);
      SelectNext(items[..n], For(proxy), Matching(items[..n], proxy), items[n]);
      assert items == items[..n] + [items[n]];
    }
  }

  lemma {:induction false} MatchingHolds(items: seq<Item>, proxy: Key, x: Item)
    ensures x in Matching(items, proxy) <==> x in items && TargetMatches(x.targetRef, x.namespace, proxy)
  {
    if items != [] {
      MatchingHolds(items[..|items| - 1], proxy, x);
    }
  }

  lemma {:induction false} MatchingAppend(a: seq<Item>, b: seq<Item>, proxy: Key)
    ensures Matching(a + b, proxy) == Matching(a, proxy) + Matching(b, proxy)
  {
    if b == [] {
      assert a + b == a;
    } else {
      assert (a + b)[..|a + b| - 1] == a + b[..|b| - 1];
      MatchingAppend(a, b[..|b| - 1], proxy);
    }
  }

  /** The Service a Cluster refers to, with the Cluster's namespace as the default. */
  function ServiceOf(cluster: Item): Key
    requires cluster.serviceRef.Some?
  {
    var ref := cluster.serviceRef.value;
    Key(ref.name, if ref.namespace == "" then cluster.namespace else ref.namespace)
  }

  /** Whether the List query for a Service returns the slice. */
  predicate BelongsTo(s: Slice, service: Key) {
    s.namespace == service.namespace && SERVICE_LABEL in s.labels && s.labels[SERVICE_LABEL] == service.name
  }

  /** The slices of a Service, in list order. */
  function SlicesOf(slices: seq<Slice>, service: Key): seq<Slice> {
    if slices == [] then []
    else
      var s := slices[|slices| - 1];
      SlicesOf(slices[..|slices| - 1], service) + if BelongsTo(s, service) then [s] else []
  }

  /** Slices in a namespace whose Service label has a value. */
  function Labelled(namespace: string, value: string): Slice -> bool {
    (s: Slice) => s.namespace == namespace && "kubernetes.io/service-name" in s.labels
                  && s.labels["kubernetes.io/service-name"] == value
  }

  /** The slices that a Cluster's Service reference asks for; its namespace defaults to the Cluster's. */
  function AskedBy(cluster: Item): Slice -> bool
    requires cluster.serviceRef.Some?
  {
    if cluster.serviceRef.value.namespace != ""
    then Labelled(cluster.serviceRef.value.namespace, cluster.serviceRef.value.name)
    else Labelled(cluster.namespace, cluster.serviceRef.value.name)
  }

  lemma {:induction false} SlicesOfIsSelection(slices: seq<Slice>, service: Key)
    ensures Selected(slices, Labelled(service.namespace, service.name), SlicesOf(slices, service))
  {
    var keep := Labelled(service.namespace, service.name);
    if slices == [] {
      NothingSelected(keep);
    } else {
      var n := |slices| - 1;
      SlicesOfIsSelection(slices[..n], service);
      SelectNext(slices[..n], keep, SlicesOf(slices[..n], service), slices[n]);
      assert slices == slices[..n] + [slices[n]];
    }
  }

  /**
   * The slices listed for a Cluster are exactly those with the reference's name as their label, in
   * the reference's namespace or, if it has none, in the Cluster's, in order.
   */
  lemma {:induction false} SlicesListedForCluster(slices: seq<Slice>, cluster: Item)
    requires cluster.serviceRef.Some?
    ensures Selected(slices, AskedBy(cluster), SlicesOf(slices, ServiceOf(cluster)))
    ensures forall s :: s in SlicesOf(slices, ServiceOf(cluster)) <==>
              && s in slices
              && "kubernetes.io/service-name" in s.labels
              && s.labels["kubernetes.io/service-name"] == cluster.serviceRef.value.name
              && (if cluster.serviceRef.value.namespace == "" then s.namespace == cluster.namespace
                  else s.namespace == cluster.serviceRef.value.namespace)
  {
    SlicesOfIsSelection(slices, ServiceOf(cluster));
    forall s ensures s in SlicesOf(slices, ServiceOf(cluster)) <==> s in slices && AskedBy(cluster)(s) {
      SlicesOfHolds(slices, ServiceOf(cluster), s);
    }
  }

  lemma {:induction false} SlicesOfHolds(slices: seq<Slice>, service: Key, s: Slice)
    ensures s in SlicesOf(slices, service) <==> s in slices && BelongsTo(s, service)
  {
    if slices != [] {
      SlicesOfHolds(slices[..|slices| - 1], service, s);
    }
  }

  lemma {:induction false} SlicesOfAppend(a: seq<Slice>, b: seq<Slice>, service: Key)
    ensures SlicesOf(a + b, service) == SlicesOf(a, service) + SlicesOf(b, service)
  {
    if b == [] {
      assert a + b == a;
    } else {
      assert (a + b)[..|a + b| - 1] == a + b[..|b| - 1];
      SlicesOfAppend(a, b[..|b| - 1], service);
    }
  }
}
