/** When the snapshot version determines the configuration it was computed from. */
module Version {
  import opened Options
  import opened Mesh
  import opened Snapshots
  import opened Collect

  /** An object together with its kind. */
  datatype Object =
    | ListenerObject(item: Item) | ClusterObject(item: Item) | RouteObject(item: Item)
    | ScopedRouteObject(item: Item) | AssignmentObject(item: Item) | SliceObject(slice: Slice)

  /** The position of a kind in the order of hashing. */
  function Rank(o: Object): nat {
    match o
    case ListenerObject(_) => 0
    case ClusterObject(_) => 1
    case RouteObject(_) => 2
    case ScopedRouteObject(_) => 3
    case AssignmentObject(_) => 4
    case SliceObject(_) => 5
  }

  function VersionOf(o: Object): string {
    if o.SliceObject? then o.slice.resourceVersion else o.item.resourceVersion
  }

  predicate Stored(o: Object, w: World) {
    match o
    case ListenerObject(x) => x in w.listeners
    case ClusterObject(x) => x in w.clusters
    case RouteObject(x) => x in w.routes
    case ScopedRouteObject(x) => x in w.scopedRoutes
    case AssignmentObject(x) => x in w.assignments
    case SliceObject(s) => s in w.slices
  }

  ghost predicate StoredInEither(o: Object, a: World, b: World) {
    Stored(o, a) || Stored(o, b)
  }

  /** A resource version names one object of one kind, across both states of the world. */
  ghost predicate Identifying(a: World, b: World) {
    forall x, y :: StoredInEither(x, a, b) && StoredInEither(y, a, b) && VersionOf(x) == VersionOf(y) ==> x == y
  }

  ghost predicate Over(xs: seq<string>, texts: iset<string>) {
    forall x <- xs :: x in texts
  }

  /** All resource versions in a state of the world are among the given texts. */
  ghost predicate WorldOver(w: World, texts: iset<string>) {
    forall o :: Stored(o, w) ==> VersionOf(o) in texts
  }

  /** Texts put end to end can be told apart again, in only one way. */
  ghost predicate UniquelyDecodable(texts: iset<string>) {
    forall xs, ys :: Over(xs, texts) && Over(ys, texts) && Concat(xs) == Concat(ys) ==> xs == ys
  }

  /** No text is empty or starts with another one. */
  ghost predicate PrefixFree(texts: iset<string>) {
    "" !in texts && forall x, y :: x in texts && y in texts && x <= y ==> x == y
  }

  ghost predicate FixedWidth(texts: iset<string>, width: nat) {
    width > 0 && forall x :: x in texts ==> |x| == width
  }

  lemma FixedWidthIsPrefixFree(texts: iset<string>, width: nat)
    requires FixedWidth(texts, width)
    ensures PrefixFree(texts)
  {
  }

  // ----- The objects behind the hash input -----

  function Tag(items: seq<Item>, kind: Item -> Object): seq<Object> {
    seq(|items|, i requires 0 <= i < |items| => kind(items[i]))
  }

  function SliceObjects(slices: seq<Slice>): seq<Object> {
    seq(|slices|, i requires 0 <= i < |slices| => SliceObject(slices[i]))
  }

  function FlatSlices(lists: seq<seq<Slice>>): seq<Slice> {
    if lists == [] then [] else FlatSlices(lists[..|lists| - 1]) + lists[|lists| - 1]
  }

  const LISTENER: Item -> Object := x => ListenerObject(x)
  const CLUSTER: Item -> Object := x => ClusterObject(x)
  const ROUTE: Item -> Object := x => RouteObject(x)
  const SCOPED_ROUTE: Item -> Object := x => ScopedRouteObject(x)
  const ASSIGNMENT: Item -> Object := x => AssignmentObject(x)

  /** The objects whose versions are hashed, in the order of hashing. */
  function Trace(r: Reads): seq<Object> {
    Tag(r.listeners, LISTENER) + FromClusters(r)
  }

  function FromClusters(r: Reads): seq<Object> {
    Tag(r.clusters, CLUSTER) + FromRoutes(r)
  }

  function FromRoutes(r: Reads): seq<Object> {
    Tag(r.routes, ROUTE) + FromScopedRoutes(r)
  }

  function FromScopedRoutes(r: Reads): seq<Object> {
    Tag(r.scopedRoutes, SCOPED_ROUTE) + FromAssignments(r)
  }

  function FromAssignments(r: Reads): seq<Object> {
    Tag(r.assignments, ASSIGNMENT) + SliceObjects(FlatSlices(r.slices))
  }

  function Versions(os: seq<Object>): seq<string> {
    seq(|os|, i requires 0 <= i < |os| => VersionOf(os[i]))
  }

  lemma {:induction false} FlatVersions(lists: seq<seq<Slice>>)
    ensures AllSliceVersions(lists) == SliceVersions(FlatSlices(lists))
  {
    if lists != [] {
      FlatVersions(lists[..|lists| - 1]);
    }
  }

  lemma {:induction false} TraceVersions(r: Reads)
    ensures HashInput(r, VersionList(r.assignments) + AllSliceVersions(r.slices)) == Concat(Versions(Trace(r)))
  {
    FlatVersions(r.slices);
    assert Versions(Trace(r)) == VersionList(r.listeners) + VersionList(r.clusters) + VersionList(r.routes)
                                 + VersionList(r.scopedRoutes)
                                 + (VersionList(r.assignments) + AllSliceVersions(r.slices));
  }

  predicate Read(o: Object, r: Reads) {
    match o
    case ListenerObject(x) => x in r.listeners
    case ClusterObject(x) => x in r.clusters
    case RouteObject(x) => x in r.routes
    case ScopedRouteObject(x) => x in r.scopedRoutes
    case AssignmentObject(x) => x in r.assignments
    case SliceObject(s) => s in FlatSlices(r.slices)
  }

  lemma TraceRead(r: Reads, o: Object)
    requires o in Trace(r)
    ensures Read(o, r)
  {
  }

  lemma TraceStored(codec: Codec, w: World, proxy: Key, o: Object)
    requires o in Trace(ReadAll(codec, w, proxy))
    ensures Stored(o, w)
  {
    var r := ReadAll(codec, w, proxy);
    TraceRead(r, o);
    match o
    case ListenerObject(x) => MatchingHolds(w.listeners, proxy, x);
    case ClusterObject(x) => MatchingHolds(w.clusters, proxy, x);
    case RouteObject(x) => MatchingHolds(w.routes, proxy, x);
    case ScopedRouteObject(x) => MatchingHolds(w.scopedRoutes, proxy, x);
    case AssignmentObject(x) => MatchingHolds(w.assignments, proxy, x);
    case SliceObject(s) => FlatSlicesStored(Synthesising(codec, r.clusters, r.assignments), w.slices, s);
  }

  lemma {:induction false} FlatSlicesStored(clusters: seq<Item>, slices: seq<Slice>, s: Slice)
    requires forall c <- clusters :: c.serviceRef.Some?
    requires s in FlatSlices(SliceLists(clusters, slices))
    ensures s in slices
    decreases |clusters|
  {
    var n := |clusters| - 1;
    assert SliceLists(clusters, slices)[..n] == SliceLists(clusters[..n], slices);
    if s in FlatSlices(SliceLists(clusters[..n], slices)) {
      FlatSlicesStored(clusters[..n], slices, s);
    } else {
      SlicesOfHolds(slices, ServiceOf(clusters[n]), s);
    }
  }

  // ----- From the hash input back to the objects -----

  /** Un-delimited concatenation can be undone when no text is empty or starts with another. */
  lemma {:induction false} ConcatInjective(xs: seq<string>, ys: seq<string>, texts: iset<string>)
    requires Over(xs, texts) && Over(ys, texts) && PrefixFree(texts) && Concat(xs) == Concat(ys)
    ensures xs == ys
  {
    if xs != [] && ys != [] {
      assert xs[0] in xs && ys[0] in ys;
      SamePrefix(xs[0], Concat(xs[1..]), ys[0], Concat(ys[1..]));
      ConcatInjective(xs[1..], ys[1..], texts);
    }
  }

  lemma PrefixFreeIsDecodable(texts: iset<string>)
    requires PrefixFree(texts)
    ensures UniquelyDecodable(texts)
  {
    forall xs, ys | Over(xs, texts) && Over(ys, texts) && Concat(xs) == Concat(ys) ensures xs == ys {
      ConcatInjective(xs, ys, texts);
    }
  }

  lemma SamePrefix(x: string, s: string, y: string, t: string)
    requires x + s == y + t && (x <= y || y <= x ==> x == y)
    ensures x == y && s == t
  {
    OneIsPrefix(x, s, y, t);
    assert s == (x + s)[|x|..] && t == (y + t)[|y|..];
  }

  lemma OneIsPrefix(x: string, s: string, y: string, t: string)
    requires x + s == y + t
    ensures x <= y || y <= x
  {
    if |x| <= |y| {
      assert x == (y + t)[..|x|] == y[..|x|];
    } else {
      assert y == (x + s)[..|y|] == x[..|y|];
    }
  }

  /** A resource version names one object of one kind among those of both sequences. */
  ghost predicate IdentifiedIn(a: seq<Object>, b: seq<Object>) {
    forall x, y :: (x in a || x in b) && (y in a || y in b) && VersionOf(x) == VersionOf(y) ==> x == y
  }

  lemma SameObjects(a: seq<Object>, b: seq<Object>)
    requires IdentifiedIn(a, b) && Versions(a) == Versions(b)
    ensures a == b
  {
    assert |a| == |Versions(a)| == |b|;
    forall i | 0 <= i < |a| ensures a[i] == b[i] {
      assert VersionOf(a[i]) == Versions(a)[i] == VersionOf(b[i]);
      assert a[i] in a && b[i] in b;
    }
  }

  /** Two ways to cut a sequence at the end of the elements of one kind are the same. */
  lemma SplitByKind(a: seq<Object>, x: seq<Object>, b: seq<Object>, y: seq<Object>, rank: nat)
    requires a + x == b + y
    requires (forall o <- a :: Rank(o) == rank) && (forall o <- b :: Rank(o) == rank)
    requires (forall o <- x :: Rank(o) > rank) && (forall o <- y :: Rank(o) > rank)
    ensures a == b && x == y
  {
    if |a| < |b| {
      LongerCut(a, x, b, y);
    } else if |b| < |a| {
      LongerCut(b, y, a, x);
    } else {
      assert a == (a + x)[..|a|] && b == (b + y)[..|b|];
      assert x == (a + x)[|a|..] && y == (b + y)[|b|..];
    }
  }

  lemma LongerCut(a: seq<Object>, x: seq<Object>, b: seq<Object>, y: seq<Object>)
    requires a + x == b + y && |a| < |b|
    ensures b[|a|] in b && b[|a|] in x
  {
    assert x[0] == (a + x)[|a|] == (b + y)[|a|] == b[|a|];
  }

  lemma TagInjective(a: seq<Item>, b: seq<Item>, kind: Item -> Object)
    requires forall x :: !kind(x).SliceObject? && kind(x).item == x
    requires Tag(a, kind) == Tag(b, kind)
    ensures a == b
  {
    assert |a| == |Tag(a, kind)| == |b|;
    forall i | 0 <= i < |a| ensures a[i] == b[i] {
      assert Tag(a, kind)[i] == Tag(b, kind)[i];
    }
  }

  /** Reads with the same trace agree on all items, and on the slices put end to end. */
  lemma TraceInjective(a: Reads, b: Reads)
    requires Trace(a) == Trace(b)
    ensures a.listeners == b.listeners && a.clusters == b.clusters && a.routes == b.routes
    ensures a.scopedRoutes == b.scopedRoutes && a.assignments == b.assignments
    ensures FlatSlices(a.slices) == FlatSlices(b.slices)
  {
    SplitByKind(Tag(a.listeners, LISTENER), FromClusters(a), Tag(b.listeners, LISTENER), FromClusters(b), 0);
    SplitByKind(Tag(a.clusters, CLUSTER), FromRoutes(a), Tag(b.clusters, CLUSTER), FromRoutes(b), 1);
    SplitByKind(Tag(a.routes, ROUTE), FromScopedRoutes(a), Tag(b.routes, ROUTE), FromScopedRoutes(b), 2);
    SplitByKind(Tag(a.scopedRoutes, SCOPED_ROUTE), FromAssignments(a),
                Tag(b.scopedRoutes, SCOPED_ROUTE), FromAssignments(b), 3);
    SplitByKind(Tag(a.assignments, ASSIGNMENT), SliceObjects(FlatSlices(a.slices)),
                Tag(b.assignments, ASSIGNMENT), SliceObjects(FlatSlices(b.slices)), 4);
    TagInjective(a.listeners, b.listeners, LISTENER);
    TagInjective(a.clusters, b.clusters, CLUSTER);
    TagInjective(a.routes, b.routes, ROUTE);
    TagInjective(a.scopedRoutes, b.scopedRoutes, SCOPED_ROUTE);
    TagInjective(a.assignments, b.assignments, ASSIGNMENT);
    SliceObjectsInjective(FlatSlices(a.slices), FlatSlices(b.slices));
  }

  lemma SliceObjectsInjective(a: seq<Slice>, b: seq<Slice>)
    requires SliceObjects(a) == SliceObjects(b)
    ensures a == b
  {
    assert |a| == |SliceObjects(a)| == |b|;
    forall i | 0 <= i < |a| ensures a[i] == b[i] {
      assert SliceObjects(a)[i] == SliceObjects(b)[i];
    }
  }

  // ----- Which slices belong to which cluster -----

  function ServicesOf(clusters: seq<Item>): seq<Key>
    requires forall c <- clusters :: c.serviceRef.Some?
  {
    seq(|clusters|, i requires 0 <= i < |clusters| => ServiceOf(clusters[i]))
  }

  /** Each list has slices of its own Service only. */
  ghost predicate Sorted(services: seq<Key>, lists: seq<seq<Slice>>) {
    |services| == |lists| && forall i, s | 0 <= i < |lists| && s in lists[i] :: BelongsTo(s, services[i])
  }

  /** The lists of one Service, put end to end. */
  function Share(services: seq<Key>, lists: seq<seq<Slice>>, service: Key): seq<Slice>
    requires |services| == |lists|
  {
    if lists == [] then []
    else
      var n := |lists| - 1;
      Share(services[..n], lists[..n], service) + if services[n] == service then lists[n] else []
  }

  lemma {:induction false} OneService(slices: seq<Slice>, own: Key, service: Key)
    requires forall s <- slices :: BelongsTo(s, own)
    ensures SlicesOf(slices, service) == if own == service then slices else []
  {
    if slices != [] {
      var n := |slices| - 1;
      OneService(slices[..n], own, service);
      assert slices[n] in slices && slices == slices[..n] + [slices[n]];
    }
  }

  /** The slices of one Service within all slices read. */
  lemma {:induction false} ShareOf(services: seq<Key>, lists: seq<seq<Slice>>, service: Key)
    requires Sorted(services, lists)
    ensures SlicesOf(FlatSlices(lists), service) == Share(services, lists, service)
    decreases |lists|
  {
    if lists != [] {
      var n := |lists| - 1;
      ShareOf(services[..n], lists[..n], service);
      SlicesOfAppend(FlatSlices(lists[..n]), lists[n], service);
      OneService(lists[n], services[n], service);
    }
  }

  /** No list of the Service is longer on the left. */
  ghost predicate Shorter(services: seq<Key>, a: seq<seq<Slice>>, b: seq<seq<Slice>>, service: Key)
    requires |services| == |a| == |b|
  {
    forall i | 0 <= i < |services| && services[i] == service :: |a[i]| <= |b[i]|
  }

  lemma {:induction false} ShorterShare(services: seq<Key>, a: seq<seq<Slice>>, b: seq<seq<Slice>>, service: Key)
    requires |services| == |a| == |b| && Shorter(services, a, b, service)
    ensures |Share(services, a, service)| <= |Share(services, b, service)|
    decreases |a|
  {
    if a != [] {
      var n := |a| - 1;
      assert Shorter(services[..n], a[..n], b[..n], service);
      ShorterShare(services[..n], a[..n], b[..n], service);
    }
  }

  /** Equal shares of which no part is longer on the left have equal parts. */
  lemma {:induction false} EqualShares(services: seq<Key>, a: seq<seq<Slice>>, b: seq<seq<Slice>>, service: Key)
    requires |services| == |a| == |b| && Shorter(services, a, b, service)
    requires Share(services, a, service) == Share(services, b, service)
    ensures forall i | 0 <= i < |services| && services[i] == service :: a[i] == b[i]
    decreases |a|
  {
    if a != [] {
      var n := |a| - 1;
      var x, y := Share(services[..n], a[..n], service), Share(services[..n], b[..n], service);
      assert Shorter(services[..n], a[..n], b[..n], service);
      ShorterShare(services[..n], a[..n], b[..n], service);
      if services[n] == service {
        assert x + a[n] == y + b[n];
        assert |a[n]| == |b[n]|;
        SameEnd(x, a[n], y, b[n]);
      } else {
        assert x + [] == x && y + [] == y;
      }
      EqualShares(services[..n], a[..n], b[..n], service);
      assert forall i | 0 <= i < n && services[i] == service ::
          services[..n][i] == service && a[..n][i] == a[i] && b[..n][i] == b[i];
    }
  }

  lemma SameEnd(x: seq<Slice>, a: seq<Slice>, y: seq<Slice>, b: seq<Slice>)
    requires x + a == y + b && |a| == |b|
    ensures x == y && a == b
  {
    assert x == (x + a)[..|x|] && y == (y + b)[..|y|];
    assert a == (x + a)[|x|..] && b == (y + b)[|y|..];
  }

  /** Lists put end to end determine each list if, for each Service, the lists of one side are not longer. */
  lemma {:induction false} FlatInjective(services: seq<Key>, a: seq<seq<Slice>>, b: seq<seq<Slice>>)
    requires Sorted(services, a) && Sorted(services, b) && FlatSlices(a) == FlatSlices(b)
    requires forall service <- services :: Shorter(services, a, b, service) || Shorter(services, b, a, service)
    ensures a == b
  {
    forall i | 0 <= i < |services| ensures a[i] == b[i] {
      var service := services[i];
      assert service in services;
      ShareOf(services, a, service);
      ShareOf(services, b, service);
      if Shorter(services, a, b, service) {
        EqualShares(services, a, b, service);
      } else {
        EqualShares(services, b, a, service);
      }
    }
  }

  lemma SliceListsSorted(clusters: seq<Item>, slices: seq<Slice>)
    requires forall c <- clusters :: c.serviceRef.Some?
    ensures Sorted(ServicesOf(clusters), SliceLists(clusters, slices))
  {
    forall i, s | 0 <= i < |clusters| && s in SliceLists(clusters, slices)[i]
      ensures BelongsTo(s, ServiceOf(clusters[i]))
    {
      SlicesOfHolds(slices, ServiceOf(clusters[i]), s);
    }
  }

  /** Slice lists of one moment put end to end determine each list, even when clusters share a Service. */
  lemma {:induction false} SliceListsInjective(clusters: seq<Item>, a: seq<Slice>, b: seq<Slice>)
    requires forall c <- clusters :: c.serviceRef.Some?
    requires FlatSlices(SliceLists(clusters, a)) == FlatSlices(SliceLists(clusters, b))
    ensures SliceLists(clusters, a) == SliceLists(clusters, b)
  {
    SliceListsSorted(clusters, a);
    SliceListsSorted(clusters, b);
    FlatInjective(ServicesOf(clusters), SliceLists(clusters, a), SliceLists(clusters, b));
  }

  // ----- Reads of a reconcile, whose List calls may see different moments -----

  ghost predicate NoDup<T(!new)>(s: seq<T>) {
    forall i, j | 0 <= i < j < |s| :: s[i] != s[j]
  }

  /** Objects of one kind differ in namespace or name. */
  ghost predicate Named(items: seq<Item>) {
    forall i, j | 0 <= i < j < |items| :: items[i].name != items[j].name || items[i].namespace != items[j].namespace
  }

  ghost predicate NamedSlices(slices: seq<Slice>) {
    forall i, j | 0 <= i < j < |slices| ::
      slices[i].name != slices[j].name || slices[i].namespace != slices[j].namespace
  }

  /** What List calls can return: no two objects of a kind with the same namespace and name. */
  ghost predicate WellNamed(w: World) {
    && Named(w.listeners) && Named(w.clusters) && Named(w.routes) && Named(w.scopedRoutes) && Named(w.assignments)
    && NamedSlices(w.slices)
  }

  /** The Services whose slices a reconcile lists, in order. */
  function ServicesRead(codec: Codec, r: Reads): seq<Key> {
    ServicesOf(Synthesising(codec, r.clusters, r.assignments))
  }

  /** One slice list per synthesised cluster, each of the cluster's Service and without repeats. */
  ghost predicate Gathered(codec: Codec, r: Reads) {
    Complete(codec, r) && Sorted(ServicesRead(codec, r), r.slices) && forall l <- r.slices :: NoDup(l)
  }

  ghost predicate ListedFor(items: seq<Item>, proxy: Key) {
    Named(items) && forall x <- items :: TargetMatches(x.targetRef, x.namespace, proxy)
  }

  /** What the separate List calls of one reconcile of the proxy can return, all in all. */
  ghost predicate Listed(codec: Codec, proxy: Key, r: Reads) {
    && ListedFor(r.listeners, proxy) && ListedFor(r.clusters, proxy) && ListedFor(r.routes, proxy)
    && ListedFor(r.scopedRoutes, proxy) && ListedFor(r.assignments, proxy)
    && Complete(codec, r) && Sorted(ServicesRead(codec, r), r.slices) && forall l <- r.slices :: NamedSlices(l)
  }

  lemma ListedIsGathered(codec: Codec, proxy: Key, r: Reads)
    requires Listed(codec, proxy, r)
    ensures Gathered(codec, r)
  {
  }

  ghost predicate Unshared(codec: Codec, r: Reads) {
    NoDup(ServicesRead(codec, r))
  }

  /** All List calls saw one state of the world. */
  ghost predicate Atomic(codec: Codec, r: Reads) {
    exists w, proxy :: r == ReadAll(codec, w, proxy)
  }

  ghost predicate Identified(a: Reads, b: Reads) {
    IdentifiedIn(Trace(a), Trace(b))
  }

  ghost predicate ReadsOver(r: Reads, texts: iset<string>) {
    forall o <- Trace(r) :: VersionOf(o) in texts
  }

  ghost predicate InEither(o: Object, a: Reads, b: Reads) {
    o in Trace(a) || o in Trace(b)
  }

  /** The resource versions that either reconcile has read. */
  ghost function TextsIn(a: Reads, b: Reads): iset<string> {
    iset o: Object | InEither(o, a, b) :: VersionOf(o)
  }

  /** The hash input that `computeVersion` gets. */
  function Input(r: Reads): string {
    HashInput(r, VersionList(r.assignments) + AllSliceVersions(r.slices))
  }

  /** The hash input for a proxy when all List calls see one state of the world. */
  function InputOf(codec: Codec, w: World, proxy: Key): string {
    Input(ReadAll(codec, w, proxy))
  }

  lemma VersionsOver(r: Reads, texts: iset<string>)
    requires ReadsOver(r, texts)
    ensures Over(Versions(Trace(r)), texts)
  {
    var os := Trace(r);
    forall i | 0 <= i < |os| ensures Versions(os)[i] in texts {
      assert os[i] in os;
    }
  }

  lemma {:induction false} NoLongerThan<T(!new)>(x: seq<T>, y: seq<T>)
    requires NoDup(x) && forall e <- x :: e in y
    ensures |x| <= |y|
  {
    if x != [] {
      var n := |x| - 1;
      assert x[n] in x && forall i | 0 <= i < n :: x[i] in x;
      var at :| 0 <= at < |y| && y[at] == x[n];
      var rest := y[..at] + y[at + 1..];
      forall e | e in x[..n] ensures e in rest {
        var i :| 0 <= i < n && x[..n][i] == e;
        assert x[i] in x;
        var j :| 0 <= j < |y| && y[j] == e;
        assert if j < at then rest[j] == e else rest[j - 1] == e;
      }
      NoLongerThan(x[..n], rest);
    }
  }

  lemma {:induction false} FlatHas(lists: seq<seq<Slice>>, i: nat, s: Slice)
    requires i < |lists| && s in lists[i]
    ensures s in FlatSlices(lists)
    decreases |lists|
  {
    var n := |lists| - 1;
    if i < n {
      FlatHas(lists[..n], i, s);
    }
  }

  /** Lists read at different moments are no longer than those of one moment, if all slices together are the same. */
  lemma {:induction false} NoLongerThanAtomic(clusters: seq<Item>, slices: seq<Slice>, lists: seq<seq<Slice>>,
                                              service: Key)
    requires (forall c <- clusters :: c.serviceRef.Some?) && Sorted(ServicesOf(clusters), lists)
    requires (forall l <- lists :: NoDup(l)) && FlatSlices(lists) == FlatSlices(SliceLists(clusters, slices))
    ensures Shorter(ServicesOf(clusters), lists, SliceLists(clusters, slices), service)
  {
    forall i | 0 <= i < |clusters| && ServiceOf(clusters[i]) == service
      ensures |lists[i]| <= |SliceLists(clusters, slices)[i]|
    {
      assert lists[i] in lists;
      forall s | s in lists[i] ensures s in SlicesOf(slices, service) {
        FlatHas(lists, i, s);
        FlatSlicesStored(clusters, slices, s);
        SlicesOfHolds(slices, service, s);
      }
      NoLongerThan(lists[i], SlicesOf(slices, service));
    }
  }

  lemma {:induction false} UnsharedComparable(services: seq<Key>, a: seq<seq<Slice>>, b: seq<seq<Slice>>, service: Key)
    requires NoDup(services) && |services| == |a| == |b|
    ensures Shorter(services, a, b, service) || Shorter(services, b, a, service)
  {
    if !Shorter(services, a, b, service) {
      var i :| 0 <= i < |services| && services[i] == service && |a[i]| > |b[i]|;
      forall j | 0 <= j < |services| && services[j] == service ensures |b[j]| <= |a[j]| {
        assert i == j;
      }
    }
  }

  /** Equal sequences of versions come from equal reads. */
  lemma {:induction false} SameVersionsSameReads(codec: Codec, a: Reads, b: Reads)
    requires Gathered(codec, a) && Gathered(codec, b) && Identified(a, b)
    requires Unshared(codec, a) || Atomic(codec, a)
    requires Versions(Trace(a)) == Versions(Trace(b))
    ensures a == b
  {
    SameObjects(Trace(a), Trace(b));
    TraceInjective(a, b);
    var services := ServicesRead(codec, a);
    forall service | service in services
      ensures Shorter(services, a.slices, b.slices, service) || Shorter(services, b.slices, a.slices, service)
    {
      if Unshared(codec, a) {
        UnsharedComparable(services, a.slices, b.slices, service);
      } else {
        var w, proxy :| a == ReadAll(codec, w, proxy);
        NoLongerThanAtomic(Synthesising(codec, a.clusters, a.assignments), w.slices, b.slices, service);
      }
    }
    FlatInjective(services, a.slices, b.slices);
  }

  lemma {:induction false} DecodableIsSufficient(codec: Codec, a: Reads, b: Reads, texts: iset<string>)
    requires Gathered(codec, a) && Gathered(codec, b) && Identified(a, b)
    requires Unshared(codec, a) || Atomic(codec, a)
    requires ReadsOver(a, texts) && ReadsOver(b, texts) && UniquelyDecodable(texts) && Input(a) == Input(b)
    ensures a == b
  {
    TraceVersions(a);
    TraceVersions(b);
    VersionsOver(a, texts);
    VersionsOver(b, texts);
    SameVersionsSameReads(codec, a, b);
  }

  lemma InUse(a: Reads, b: Reads)
    ensures ReadsOver(a, TextsIn(a, b)) && ReadsOver(b, TextsIn(a, b))
  {
    forall o | o in Trace(a) || o in Trace(b) ensures VersionOf(o) in TextsIn(a, b) {
      assert InEither(o, a, b);
    }
  }

  /**
   * The version is sufficient: two reconciles with the same hash input have read the same objects, at
   * whatever moments, if no two synthesised clusters share a Service or one reconcile saw one state
   * of the world.
   */
  lemma {:induction false} VersionSufficient(codec: Codec, a: Reads, b: Reads)
    requires Gathered(codec, a) && Gathered(codec, b) && Identified(a, b) && PrefixFree(TextsIn(a, b))
    requires Unshared(codec, a) || Atomic(codec, a)
    requires Input(a) == Input(b)
    ensures a == b
  {
    PrefixFreeIsDecodable(TextsIn(a, b));
    InUse(a, b);
    DecodableIsSufficient(codec, a, b, TextsIn(a, b));
  }

  lemma {:induction false} VersionSufficientForFixedWidth(codec: Codec, a: Reads, b: Reads, width: nat)
    requires Gathered(codec, a) && Gathered(codec, b) && Identified(a, b) && FixedWidth(TextsIn(a, b), width)
    requires Unshared(codec, a) || Atomic(codec, a)
    requires forall s, t :: codec.digest(s) == codec.digest(t) ==> s == t
    requires OutcomeOf(codec, a).Good? && OutcomeOf(codec, b).Good?
    requires OutcomeOf(codec, a).snapshot.version == OutcomeOf(codec, b).snapshot.version
    ensures OutcomeOf(codec, a) == OutcomeOf(codec, b)
  {
    FixedWidthIsPrefixFree(TextsIn(a, b), width);
    GoodVersion(codec, a);
    GoodVersion(codec, b);
    VersionSufficient(codec, a, b);
  }

  lemma GoodVersion(codec: Codec, r: Reads)
    requires Complete(codec, r) && OutcomeOf(codec, r).Good?
    ensures OutcomeOf(codec, r).snapshot.version == codec.digest(Input(r))
  {
  }

  // ----- Exactly when the version is sufficient -----

  /** A listener named after its version, for proxy `p` in namespace `n`; its spec is its version too. */
  function ListenerFor(version: string): Item {
    Item("l" + version, "n", version, TargetRef("p", ""), None, version)
  }

  function Listeners(versions: seq<string>): seq<Item> {
    seq(|versions|, i requires 0 <= i < |versions| => ListenerFor(versions[i]))
  }

  const PROXY := Key("p", "n")

  /** A world that holds the proxy, one listener for each version, and nothing else. */
  function ListenerWorld(versions: seq<string>): World {
    World({PROXY}, Listeners(versions), [], [], [], [], [])
  }

  lemma {:induction false} AllListenersMatch(versions: seq<string>)
    ensures Matching(Listeners(versions), PROXY) == Listeners(versions)
  {
    if versions != [] {
      var n := |versions| - 1;
      AllListenersMatch(versions[..n]);
      assert Listeners(versions)[..n] == Listeners(versions[..n]);
    }
  }

  lemma {:induction false} ReadListeners(codec: Codec, versions: seq<string>)
    ensures ReadAll(codec, ListenerWorld(versions), PROXY).listeners == Listeners(versions)
    ensures InputOf(codec, ListenerWorld(versions), PROXY) == Concat(versions)
    ensures SpecList(Listeners(versions)) == versions
  {
    AllListenersMatch(versions);
    var r := ReadAll(codec, ListenerWorld(versions), PROXY);
    assert r.slices == [];
    assert VersionList(r.listeners) == versions;
    assert VersionList(r.listeners) + VersionList(r.clusters) + VersionList(r.routes) + VersionList(r.scopedRoutes)
           + (VersionList(r.assignments) + AllSliceVersions(r.slices)) == versions;
  }

  /**
   * Identifying versions alone are not enough: whenever two different sequences of versions make up
   * the same text, worlds with different specs have the same hash input.
   */
  lemma {:induction false} VariableWidthCollides(codec: Codec, xs: seq<string>, ys: seq<string>)
    requires xs != ys && Concat(xs) == Concat(ys)
    ensures var a, b := ListenerWorld(xs), ListenerWorld(ys);
            && Identifying(a, b) && InputOf(codec, a, PROXY) == InputOf(codec, b, PROXY)
            && SpecList(ReadAll(codec, a, PROXY).listeners) != SpecList(ReadAll(codec, b, PROXY).listeners)
  {
    ListenersIdentified(xs, ys);
    ReadListeners(codec, xs);
    ReadListeners(codec, ys);
  }

  lemma ListenerStored(versions: seq<string>, o: Object)
    requires Stored(o, ListenerWorld(versions))
    ensures o == ListenerObject(ListenerFor(VersionOf(o)))
  {
  }

  lemma ListenersIdentified(xs: seq<string>, ys: seq<string>)
    ensures Identifying(ListenerWorld(xs), ListenerWorld(ys))
  {
    var a, b := ListenerWorld(xs), ListenerWorld(ys);
    forall o | StoredInEither(o, a, b) ensures o == ListenerObject(ListenerFor(VersionOf(o))) {
      if Stored(o, a) {
        ListenerStored(xs, o);
      } else {
        ListenerStored(ys, o);
      }
    }
  }

  lemma ListenerWorldOver(versions: seq<string>, texts: iset<string>)
    requires Over(versions, texts)
    ensures WorldOver(ListenerWorld(versions), texts)
  {
    forall o | Stored(o, ListenerWorld(versions)) ensures VersionOf(o) in texts {
      var i :| 0 <= i < |versions| && o.item == Listeners(versions)[i];
      assert versions[i] in versions;
    }
  }

  lemma {:induction false} WorldsIdentifyReads(codec: Codec, a: World, b: World, proxy: Key)
    requires Identifying(a, b)
    ensures Identified(ReadAll(codec, a, proxy), ReadAll(codec, b, proxy))
  {
    var p, q := Trace(ReadAll(codec, a, proxy)), Trace(ReadAll(codec, b, proxy));
    forall o | o in p || o in q ensures StoredInEither(o, a, b) {
      if o in p {
        TraceStored(codec, a, proxy, o);
      } else {
        TraceStored(codec, b, proxy, o);
      }
    }
  }

  lemma {:induction false} WorldReadsOver(codec: Codec, w: World, proxy: Key, texts: iset<string>)
    requires WorldOver(w, texts)
    ensures ReadsOver(ReadAll(codec, w, proxy), texts)
  {
    forall o | o in Trace(ReadAll(codec, w, proxy)) ensures VersionOf(o) in texts {
      TraceStored(codec, w, proxy, o);
    }
  }

  /** The reads of listener worlds whose versions make up one text collide. */
  lemma {:induction false} ListenerReadsCollide(codec: Codec, xs: seq<string>, ys: seq<string>, texts: iset<string>)
    requires xs != ys && Concat(xs) == Concat(ys) && Over(xs, texts) && Over(ys, texts)
    ensures var a, b := ReadAll(codec, ListenerWorld(xs), PROXY), ReadAll(codec, ListenerWorld(ys), PROXY);
            && Gathered(codec, a) && Gathered(codec, b) && Unshared(codec, a) && Unshared(codec, b)
            && Identified(a, b) && ReadsOver(a, texts) && ReadsOver(b, texts) && Input(a) == Input(b) && a != b
  {
    VariableWidthCollides(codec, xs, ys);
    WorldsIdentifyReads(codec, ListenerWorld(xs), ListenerWorld(ys), PROXY);
    ListenerWorldOver(xs, texts);
    ListenerWorldOver(ys, texts);
    WorldReadsOver(codec, ListenerWorld(xs), PROXY, texts);
    WorldReadsOver(codec, ListenerWorld(ys), PROXY, texts);
    NoServices(codec, xs);
    NoServices(codec, ys);
  }

  lemma NoServices(codec: Codec, versions: seq<string>)
    ensures var r := ReadAll(codec, ListenerWorld(versions), PROXY);
            ServicesRead(codec, r) == [] && r.slices == [] && Gathered(codec, r)
  {
    var r := ReadAll(codec, ListenerWorld(versions), PROXY);
    assert r.clusters == [] && r.assignments == [];
    assert Synthesising(codec, [], []) == [];
  }

  /**
   * Whatever identifying versions are drawn from the texts, equal hash inputs mean equal reads, for
   * reconciles of which one has no shared Service or saw one state of the world.
   */
  ghost predicate Sufficient(codec: Codec, texts: iset<string>) {
    forall a, b :: Gathered(codec, a) && Gathered(codec, b) && (Unshared(codec, a) || Atomic(codec, a))
                   && Identified(a, b) && ReadsOver(a, texts) && ReadsOver(b, texts) && Input(a) == Input(b)
                   ==> a == b
  }

  /** The hash input determines such reads if and only if the versions in use are uniquely decodable. */
  lemma {:induction false} SufficientIffDecodable(codec: Codec, texts: iset<string>)
    ensures Sufficient(codec, texts) <==> UniquelyDecodable(texts)
  {
    if UniquelyDecodable(texts) {
      forall a, b | Gathered(codec, a) && Gathered(codec, b) && (Unshared(codec, a) || Atomic(codec, a))
                    && Identified(a, b) && ReadsOver(a, texts) && ReadsOver(b, texts) && Input(a) == Input(b)
        ensures a == b
      {
        DecodableIsSufficient(codec, a, b, texts);
      }
    }
    if Sufficient(codec, texts) {
      forall xs, ys | Over(xs, texts) && Over(ys, texts) && Concat(xs) == Concat(ys) ensures xs == ys {
        if xs != ys {
          ListenerReadsCollide(codec, xs, ys, texts);
        }
      }
    }
  }

  // ----- The same for lists without repeats -----

  lemma NoDupAppend<T(!new)>(a: seq<T>, b: seq<T>)
    requires NoDup(a) && NoDup(b) && forall x :: x in a ==> x !in b
    ensures NoDup(a + b)
  {
    forall i, j | 0 <= i < j < |a + b| ensures (a + b)[i] != (a + b)[j] {
      if i < |a| <= j {
        assert a[i] in a && b[j - |a|] in b;
      }
    }
  }

  lemma {:induction false} MatchingNamed(items: seq<Item>, proxy: Key)
    requires Named(items)
    ensures ListedFor(Matching(items, proxy), proxy)
  {
    if items != [] {
      var n := |items| - 1;
      MatchingNamed(items[..n], proxy);
      var init, x := Matching(items[..n], proxy), items[n];
      forall i | 0 <= i < |init| ensures init[i].name != x.name || init[i].namespace != x.namespace {
        MatchingHolds(items[..n], proxy, init[i]);
        var j :| 0 <= j < n && items[..n][j] == init[i];
        assert items[j] == init[i];
      }
    }
  }

  lemma {:induction false} SlicesNamed(slices: seq<Slice>, service: Key)
    requires NamedSlices(slices)
    ensures NamedSlices(SlicesOf(slices, service))
  {
    if slices != [] {
      var n := |slices| - 1;
      SlicesNamed(slices[..n], service);
      var init, s := SlicesOf(slices[..n], service), slices[n];
      forall i | 0 <= i < |init| ensures init[i].name != s.name || init[i].namespace != s.namespace {
        SlicesOfHolds(slices[..n], service, init[i]);
        var j :| 0 <= j < n && slices[..n][j] == init[i];
        assert slices[j] == init[i];
      }
    }
  }

  /** One state of a properly named world is read as lists of the kind that separate List calls return. */
  lemma {:induction false} ReadAllListed(codec: Codec, w: World, proxy: Key)
    requires WellNamed(w)
    ensures Listed(codec, proxy, ReadAll(codec, w, proxy))
  {
    MatchingNamed(w.listeners, proxy);
    MatchingNamed(w.clusters, proxy);
    MatchingNamed(w.routes, proxy);
    MatchingNamed(w.scopedRoutes, proxy);
    MatchingNamed(w.assignments, proxy);
    var clusters := Synthesising(codec, Matching(w.clusters, proxy), Matching(w.assignments, proxy));
    SliceListsSorted(clusters, w.slices);
    forall i | 0 <= i < |clusters| ensures NamedSlices(SliceLists(clusters, w.slices)[i]) {
      SlicesNamed(w.slices, ServiceOf(clusters[i]));
    }
  }

  /** Lists of different Services have no slice in common. */
  lemma {:induction false} FlatSlicesNoDup(services: seq<Key>, lists: seq<seq<Slice>>)
    requires Sorted(services, lists) && NoDup(services) && forall l <- lists :: NoDup(l)
    ensures NoDup(FlatSlices(lists))
    decreases |lists|
  {
    if lists != [] {
      var n := |lists| - 1;
      FlatSlicesNoDup(services[..n], lists[..n]);
      forall s | s in FlatSlices(lists[..n]) ensures s !in lists[n] {
        FlatFrom(services[..n], lists[..n], s);
      }
      NoDupAppend(FlatSlices(lists[..n]), lists[n]);
    }
  }

  lemma {:induction false} FlatFrom(services: seq<Key>, lists: seq<seq<Slice>>, s: Slice)
    requires Sorted(services, lists) && s in FlatSlices(lists)
    ensures exists i | 0 <= i < |services| :: BelongsTo(s, services[i])
    decreases |lists|
  {
    var n := |lists| - 1;
    if s in FlatSlices(lists[..n]) {
      FlatFrom(services[..n], lists[..n], s);
      var i :| 0 <= i < n && BelongsTo(s, services[..n][i]);
      assert BelongsTo(s, services[i]);
    } else {
      assert BelongsTo(s, services[n]);
    }
  }

  lemma TagNoDup(items: seq<Item>, kind: Item -> Object)
    requires NoDup(items) && forall x :: !kind(x).SliceObject? && kind(x).item == x
    ensures NoDup(Tag(items, kind))
  {
    forall i, j | 0 <= i < j < |items| ensures Tag(items, kind)[i] != Tag(items, kind)[j] {
      assert kind(items[i]).item != kind(items[j]).item;
    }
  }

  lemma {:induction false} TraceNoDup(r: Reads)
    requires NoDup(r.listeners) && NoDup(r.clusters) && NoDup(r.routes) && NoDup(r.scopedRoutes) && NoDup(r.assignments)
    requires NoDup(FlatSlices(r.slices))
    ensures NoDup(Trace(r))
  {
    TagNoDup(r.listeners, LISTENER);
    TagNoDup(r.clusters, CLUSTER);
    TagNoDup(r.routes, ROUTE);
    TagNoDup(r.scopedRoutes, SCOPED_ROUTE);
    TagNoDup(r.assignments, ASSIGNMENT);
    NoDupAppend(Tag(r.assignments, ASSIGNMENT), SliceObjects(FlatSlices(r.slices)));
    NoDupAppend(Tag(r.scopedRoutes, SCOPED_ROUTE), FromAssignments(r));
    NoDupAppend(Tag(r.routes, ROUTE), FromScopedRoutes(r));
    NoDupAppend(Tag(r.clusters, CLUSTER), FromRoutes(r));
    NoDupAppend(Tag(r.listeners, LISTENER), FromClusters(r));
  }

  lemma {:induction false} VersionsNoDup(codec: Codec, proxy: Key, r: Reads, other: Reads)
    requires Listed(codec, proxy, r) && Unshared(codec, r) && Identified(r, other)
    ensures NoDup(Versions(Trace(r)))
  {
    var os := Trace(r);
    FlatSlicesNoDup(ServicesRead(codec, r), r.slices);
    TraceNoDup(r);
    forall i, j | 0 <= i < j < |os| ensures Versions(os)[i] != Versions(os)[j] {
      assert os[i] in os && os[j] in os;
    }
  }

  /** Different texts put end to end can be told apart again, in only one way. */
  ghost predicate DecodableWithoutRepeats(texts: iset<string>) {
    forall xs, ys :: Over(xs, texts) && Over(ys, texts) && NoDup(xs) && NoDup(ys) && Concat(xs) == Concat(ys) ==>
      xs == ys
  }

  /** Equal hash inputs mean equal reads, for reconciles whose clusters share no Service. */
  ghost predicate SufficientWhenUnshared(codec: Codec, texts: iset<string>) {
    forall a, b, proxy :: Listed(codec, proxy, a) && Listed(codec, proxy, b) && Unshared(codec, a) && Unshared(codec, b)
                          && Identified(a, b) && ReadsOver(a, texts) && ReadsOver(b, texts) && Input(a) == Input(b)
                          ==> a == b
  }

  lemma {:induction false} ListenerWorldNamed(versions: seq<string>)
    requires NoDup(versions)
    ensures WellNamed(ListenerWorld(versions))
  {
    forall i, j | 0 <= i < j < |versions| ensures ListenerFor(versions[i]).name != ListenerFor(versions[j]).name {
      assert ListenerFor(versions[i]).name[1..] == versions[i] && ListenerFor(versions[j]).name[1..] == versions[j];
    }
  }

  /**
   * For lists as List calls return them, at whatever moments, and clusters that share no Service, the
   * hash input determines the reads if and only if the versions are uniquely decodable without repeats.
   */
  lemma {:induction false} ProperSufficientIffDecodable(codec: Codec, texts: iset<string>)
    ensures SufficientWhenUnshared(codec, texts) <==> DecodableWithoutRepeats(texts)
  {
    if DecodableWithoutRepeats(texts) {
      forall a, b, proxy | Listed(codec, proxy, a) && Listed(codec, proxy, b)
                           && Unshared(codec, a) && Unshared(codec, b)
                           && Identified(a, b) && ReadsOver(a, texts) && ReadsOver(b, texts) && Input(a) == Input(b)
        ensures a == b
      {
        UnsharedIsSufficient(codec, a, b, proxy, texts);
      }
    }
    if SufficientWhenUnshared(codec, texts) {
      forall xs, ys | Over(xs, texts) && Over(ys, texts) && NoDup(xs) && NoDup(ys) && Concat(xs) == Concat(ys)
        ensures xs == ys
      {
        if xs != ys {
          ListenerReadsCollide(codec, xs, ys, texts);
          ListenerWorldNamed(xs);
          ListenerWorldNamed(ys);
          ReadAllListed(codec, ListenerWorld(xs), PROXY);
          ReadAllListed(codec, ListenerWorld(ys), PROXY);
        }
      }
    }
  }

  lemma {:induction false} UnsharedIsSufficient(codec: Codec, a: Reads, b: Reads, proxy: Key, texts: iset<string>)
    requires Listed(codec, proxy, a) && Listed(codec, proxy, b) && Unshared(codec, a) && Unshared(codec, b)
    requires Identified(a, b) && ReadsOver(a, texts) && ReadsOver(b, texts) && Input(a) == Input(b)
    requires DecodableWithoutRepeats(texts)
    ensures a == b
  {
    TraceVersions(a);
    TraceVersions(b);
    VersionsOver(a, texts);
    VersionsOver(b, texts);
    VersionsNoDup(codec, proxy, a, b);
    VersionsNoDup(codec, proxy, b, a);
    ListedIsGathered(codec, proxy, a);
    ListedIsGathered(codec, proxy, b);
    SameVersionsSameReads(codec, a, b);
  }

  /** Two Listeners against one, and two against two: worlds with different reads and the same hash input. */
  lemma {:induction false} CollisionInstance(codec: Codec)
    ensures Collide(codec, ListenerWorld(["1", "2"]), ListenerWorld(["12"]))
    ensures Collide(codec, ListenerWorld(["1", "12"]), ListenerWorld(["11", "2"]))
  {
    ShortTexts("1", "2");
    ShortTexts("1", "12");
    ShortTexts("11", "2");
    assert ["12"][1..] == [];
    assert Concat(["12"]) == "12";
    assert "1" + "2" == "12" && "1" + "12" == "11" + "2";
    assert ["1", "12"][1] != ["11", "2"][1] by {
      assert |"12"| != |"2"|;
    }
    TwoDiffer("1", "2");
    TwoDiffer("1", "12");
    TwoDiffer("11", "2");
    ColliderPair(codec, ["1", "2"], ["12"]);
    ColliderPair(codec, ["1", "12"], ["11", "2"]);
  }

  ghost predicate Collide(codec: Codec, a: World, b: World) {
    && WellNamed(a) && WellNamed(b) && Identifying(a, b)
    && InputOf(codec, a, PROXY) == InputOf(codec, b, PROXY) && ReadAll(codec, a, PROXY) != ReadAll(codec, b, PROXY)
  }

  lemma ColliderPair(codec: Codec, xs: seq<string>, ys: seq<string>)
    requires xs != ys && Concat(xs) == Concat(ys) && NoDup(xs) && NoDup(ys)
    ensures Collide(codec, ListenerWorld(xs), ListenerWorld(ys))
  {
    VariableWidthCollides(codec, xs, ys);
    ListenerWorldNamed(xs);
    ListenerWorldNamed(ys);
  }

  lemma ShortTexts(x: string, y: string)
    ensures Concat([x, y]) == x + y
  {
    assert [x, y][1..] == [y] && [y][1..] == [];
    assert Concat([y]) == y;
  }

  lemma TwoDiffer(x: string, y: string)
    requires x != y
    ensures NoDup([x, y])
  {
  }
}
