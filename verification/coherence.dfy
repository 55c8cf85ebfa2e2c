/**
 * The reconciler as a state machine: objects change, watch events are delivered later, a work
 * queue holds requests, and each reconcile does its List reads one at a time before it writes.
 */
module Coherence {
  import opened DottedNames
  import opened Mesh
  import opened Snapshots
  import opened Collect
  import opened Watch

  // ----- Changes of the world and the events they cause -----

  datatype ListChange<T> = Insert(at: nat, x: T) | Remove(at: nat) | Replace(at: nat, x: T)

  predicate Applicable<T>(c: ListChange<T>, s: seq<T>) {
    if c.Insert? then c.at <= |s| else c.at < |s|
  }

  function Apply<T>(c: ListChange<T>, s: seq<T>): seq<T>
    requires Applicable(c, s)
  {
    match c
    case Insert(at, x) => s[..at] + [x] + s[at..]
    case Remove(at) => s[..at] + [] + s[at + 1..]
    case Replace(at, x) => s[..at] + [x] + s[at + 1..]
  }

  /** The old and the new object, as an event carries them. */
  function Touched<T(==)>(c: ListChange<T>, s: seq<T>): set<T>
    requires Applicable(c, s)
  {
    match c
    case Insert(at, x) => {x}
    case Remove(at) => {s[at]}
    case Replace(at, x) => {s[at], x}
  }

  datatype Change =
    | ItemChange(kind: Kind, items: ListChange<Item>)
    | SliceChange(slices: ListChange<Slice>)
    | ProxySet(key: Key)
    | ProxyDeleted(key: Key)

  /** An event that has not been mapped to requests yet. */
  datatype Event = ItemEvent(items: set<Item>) | SliceEvent(slices: set<Slice>) | ProxyEvent(key: Key)

  function ItemsOf(w: World, kind: Kind): seq<Item> {
    match kind
    case ListenerKind => w.listeners
    case ClusterKind => w.clusters
    case RouteKind => w.routes
    case ScopedRouteKind => w.scopedRoutes
    case EndpointKind => w.assignments
  }

  function WithItems(w: World, kind: Kind, items: seq<Item>): World {
    match kind
    case ListenerKind => w.(listeners := items)
    case ClusterKind => w.(clusters := items)
    case RouteKind => w.(routes := items)
    case ScopedRouteKind => w.(scopedRoutes := items)
    case EndpointKind => w.(assignments := items)
  }

  predicate Possible(ch: Change, w: World) {
    match ch
    case ItemChange(kind, c) => Applicable(c, ItemsOf(w, kind))
    case SliceChange(c) => Applicable(c, w.slices)
    case ProxySet(key) => DotFree(key.namespace)
    case ProxyDeleted(key) => key in w.proxies
  }

  function Changed(ch: Change, w: World): World
    requires Possible(ch, w)
  {
    match ch
    case ItemChange(kind, c) => WithItems(w, kind, Apply(c, ItemsOf(w, kind)))
    case SliceChange(c) => w.(slices := Apply(c, w.slices))
    case ProxySet(key) => w.(proxies := w.proxies + {key})
    case ProxyDeleted(key) => w.(proxies := w.proxies - {key})
  }

  function EventOf(ch: Change, w: World): Event
    requires Possible(ch, w)
  {
    match ch
    case ItemChange(kind, c) => ItemEvent(Touched(c, ItemsOf(w, kind)))
    case SliceChange(c) => SliceEvent(Touched(c, w.slices))
    case ProxySet(key) => ProxyEvent(key)
    case ProxyDeleted(key) => ProxyEvent(key)
  }

  /** The requests of an event, if it were mapped in the given world. */
  ghost predicate Requests(w: World, ev: Event, k: Key) {
    match ev
    case ItemEvent(items) => exists x :: x in items && TargetOf(x) == k
    case SliceEvent(slices) => exists s :: s in slices && SliceMapsTo(w.clusters, s, k)
    case ProxyEvent(key) => key == k
  }

  // ----- The machine -----

  /** A reconcile under way: `stage` item lists have been read, then slice lists one by one. */
  datatype Progress = Progress(stage: nat, got: Reads)

  /**
   * `written` records what was read for each cached snapshot; `missed` the proxies whose request
   * was dropped with an event, until their next reconcile begins.
   */
  datatype State = State(
    world: World, queue: set<Key>, active: map<Key, Progress>, inflight: seq<Event>,
    cache: map<string, Snapshot>, written: map<string, Reads>, missed: set<Key>)

  function StartOfReads(): Progress {
    Progress(0, Reads([], [], [], [], [], []))
  }

  function Needed(codec: Codec, p: Progress): seq<Item> {
    Synthesising(codec, p.got.clusters, p.got.assignments)
  }

  predicate Finished(codec: Codec, p: Progress) {
    p.stage == 5 && Complete(codec, p.got)
  }

  predicate CanRead(codec: Codec, p: Progress) {
    p.stage < 5 || (p.stage == 5 && |p.got.slices| < |Needed(codec, p)|)
  }

  /** One List call of a reconcile, against the world of that moment. */
  function ReadOne(codec: Codec, w: World, k: Key, p: Progress): Progress
    requires CanRead(codec, p)
  {
    match p.stage
    case 0 => Progress(1, p.got.(listeners := Matching(w.listeners, k)))
    case 1 => Progress(2, p.got.(clusters := Matching(w.clusters, k)))
    case 2 => Progress(3, p.got.(routes := Matching(w.routes, k)))
    case 3 => Progress(4, p.got.(scopedRoutes := Matching(w.scopedRoutes, k)))
    case 4 => Progress(5, p.got.(assignments := Matching(w.assignments, k)))
    case _ =>
      var c := Needed(codec, p)[|p.got.slices|];
      assert c in Needed(codec, p);
      Progress(5, p.got.(slices := p.got.slices + [SlicesOf(w.slices, ServiceOf(c))]))
  }

  datatype Step =
    | Environment(change: Change)
    | Deliver(index: nat)
    | Drop(index: nat, lost: set<Slice>)
    | Begin(key: Key)
    | Read(key: Key)
    | Commit(key: Key, statusEvents: nat)
    | Abort(key: Key)

  ghost predicate Enabled(codec: Codec, st: State, step: Step) {
    match step
    case Environment(ch) => Possible(ch, st.world)
    case Deliver(i) => i < |st.inflight|
    case Drop(i, lost) => i < |st.inflight| && st.inflight[i].SliceEvent? && lost <= st.inflight[i].slices
    case Begin(k) => k in st.queue && k !in st.active
    case Read(k) => k in st.active && CanRead(codec, st.active[k])
    case Commit(k, _) => k in st.active && Finished(codec, st.active[k])
    case Abort(k) => k in st.active
  }

  ghost function Next(codec: Codec, st: State, step: Step): State
    requires Enabled(codec, st, step)
  {
    match step
    case Environment(ch) => st.(world := Changed(ch, st.world), inflight := st.inflight + [EventOf(ch, st.world)])
    case Deliver(i) =>
      st.(queue := st.queue + Mapped(st.world, st.inflight[i]), inflight := st.inflight[..i] + st.inflight[i + 1..])
    case Drop(i, lost) =>
      // The mapper runs once per object of the event, and could not list the Clusters for those in `lost`.
      st.(missed := st.missed + Mapped(st.world, SliceEvent(lost)),
          queue := st.queue + Mapped(st.world, SliceEvent(st.inflight[i].slices - lost)),
          inflight := st.inflight[..i] + st.inflight[i + 1..])
    case Begin(k) =>
      // A proxy that does not exist ends the reconcile at once; its cache entry stays.
      st.(queue := st.queue - {k}, missed := st.missed - {k},
          active := if k in st.world.proxies then st.active[k := StartOfReads()] else st.active)
    case Read(k) => st.(active := st.active[k := ReadOne(codec, st.world, k, st.active[k])])
    case Commit(k, n) => Committed(codec, st, k, n)
    case Abort(k) => st.(active := st.active - {k}, queue := st.queue + {k})
  }

  /** The requests of an event as the mapper returns them when its List succeeds. */
  ghost function Mapped(w: World, ev: Event): set<Key> {
    match ev
    case ItemEvent(items) => set x | x in items :: TargetOf(x)
    case SliceEvent(slices) => set s, c | s in slices && c in w.clusters && Feeds(s, c, TargetOf(c)) :: TargetOf(c)
    case ProxyEvent(key) => {key}
  }

  /** The end of a reconcile: a good snapshot is cached; an error puts the key back into the queue. */
  ghost function Committed(codec: Codec, st: State, k: Key, statusEvents: nat): State
    requires k in st.active && Finished(codec, st.active[k])
  {
    var r := st.active[k].got;
    var done := st.(active := st.active - {k}, inflight := st.inflight + seq(statusEvents, _ => ProxyEvent(k)));
    match OutcomeOf(codec, r)
    case Good(snapshot) => done.(cache := st.cache[NodeId(k) := snapshot], written := st.written[NodeId(k) := r])
    case _ => done.(queue := st.queue + {k})
  }

  /** At the start every proxy is queued, and nothing is cached. */
  ghost predicate Initial(st: State) {
    && (forall k :: k in st.world.proxies ==> DotFree(k.namespace) && k in st.queue)
    && st.active == map[] && st.cache == map[] && st.written == map[] && st.missed == {}
  }

  ghost predicate Runs(codec: Codec, st: State, steps: seq<Step>, end: State)
    decreases |steps|
  {
    if steps == [] then st == end
    else
      var n := |steps| - 1;
      exists mid ::
        Runs(codec, st, steps[..n], mid) && Enabled(codec, mid, steps[n]) && Next(codec, mid, steps[n]) == end
  }

  // ----- The invariant -----

  /** A reconcile of the key will start: it is queued, or an undelivered event requests it. */
  ghost predicate Pending(st: State, k: Key) {
    k in st.queue || Awaited(st.world, st.inflight, k)
  }

  ghost predicate Awaited(w: World, inflight: seq<Event>, k: Key) {
    exists ev :: ev in inflight && Requests(w, ev, k)
  }

  /** A reconcile of the key will start, or its request was dropped. */
  ghost predicate Due(st: State, k: Key) {
    Pending(st, k) || k in st.missed
  }

  /** What has been read so far is what the world holds now. */
  ghost predicate UpToDate(codec: Codec, w: World, k: Key, p: Progress) {
    && (p.stage >= 1 ==> p.got.listeners == Matching(w.listeners, k))
    && (p.stage >= 2 ==> p.got.clusters == Matching(w.clusters, k))
    && (p.stage >= 3 ==> p.got.routes == Matching(w.routes, k))
    && (p.stage >= 4 ==> p.got.scopedRoutes == Matching(w.scopedRoutes, k))
    && (p.stage >= 5 ==> p.got.assignments == Matching(w.assignments, k) && SlicesUpToDate(codec, w, p))
  }

  ghost predicate SlicesUpToDate(codec: Codec, w: World, p: Progress) {
    |p.got.slices| <= |Needed(codec, p)| && p.got.slices == SliceLists(Needed(codec, p), w.slices)[..|p.got.slices|]
  }

  ghost predicate WellFormed(codec: Codec, p: Progress) {
    && p.stage <= 5
    && (p.stage < 5 ==> p.got.slices == [])
    && (p.stage == 5 ==> |p.got.slices| <= |Needed(codec, p)|)
  }

  /** The cached snapshot of the proxy is the from-scratch build of the current world. */
  ghost predicate Coherent(codec: Codec, st: State, k: Key) {
    NodeId(k) in st.cache && FromScratch(codec, st.world, k) == Good(st.cache[NodeId(k)])
  }

  /** The reads recorded for a node id make up its cached snapshot. */
  ghost predicate BuiltFrom(codec: Codec, r: Reads, snapshot: Snapshot) {
    Complete(codec, r) && OutcomeOf(codec, r) == Good(snapshot)
  }

  /** Every cached snapshot is the complete build of what one reconcile read. */
  ghost predicate LastGood(codec: Codec, st: State) {
    forall id :: id in st.cache ==> id in st.written && BuiltFrom(codec, st.written[id], st.cache[id])
  }

  ghost predicate ActiveOk(codec: Codec, st: State, k: Key) {
    && k in st.active && DotFree(k.namespace) && WellFormed(codec, st.active[k])
    && (Due(st, k) || UpToDate(codec, st.world, k, st.active[k]))
  }

  ghost predicate ProxyOk(codec: Codec, st: State, k: Key) {
    DotFree(k.namespace) && (Due(st, k) || k in st.active || Coherent(codec, st, k))
  }

  ghost predicate Inv(codec: Codec, st: State) {
    && (forall k :: k in st.active ==> ActiveOk(codec, st, k))
    && (forall k :: k in st.world.proxies ==> ProxyOk(codec, st, k))
    && LastGood(codec, st)
  }

  // ----- Changes that request nothing for a proxy leave its reads alone -----

  lemma ChangeSplits<T>(c: ListChange<T>, s: seq<T>) returns (pre: seq<T>, was: seq<T>, now: seq<T>, post: seq<T>)
    requires Applicable(c, s)
    ensures s == pre + was + post && Apply(c, s) == pre + now + post
    ensures forall x :: x in was || x in now ==> x in Touched(c, s)
  {
    match c
    case Insert(at, x) => pre, was, now, post := s[..at], [], [x], s[at..];
    case Remove(at) => pre, was, now, post := s[..at], [s[at]], [], s[at + 1..];
    case Replace(at, x) => pre, was, now, post := s[..at], [s[at]], [x], s[at + 1..];
  }

  lemma {:induction false} NoneMatch(items: seq<Item>, k: Key)
    requires forall x <- items :: !TargetMatches(x.targetRef, x.namespace, k)
    ensures Matching(items, k) == []
  {
    if items != [] {
      NoneMatch(items[..|items| - 1], k);
    }
  }

  lemma {:induction false} NoneBelong(slices: seq<Slice>, service: Key)
    requires forall s <- slices :: !BelongsTo(s, service)
    ensures SlicesOf(slices, service) == []
  {
    if slices != [] {
      NoneBelong(slices[..|slices| - 1], service);
    }
  }

  lemma {:induction false} MatchingUnaffected(c: ListChange<Item>, items: seq<Item>, k: Key)
    requires Applicable(c, items) && forall x :: x in Touched(c, items) ==> TargetOf(x) != k
    ensures Matching(Apply(c, items), k) == Matching(items, k)
  {
    var pre, was, now, post := ChangeSplits(c, items);
    NoneMatch(was, k);
    NoneMatch(now, k);
    MatchingAppend(pre + was, post, k);
    MatchingAppend(pre, was, k);
    MatchingAppend(pre + now, post, k);
    MatchingAppend(pre, now, k);
  }

  lemma {:induction false} SlicesUnaffected(c: ListChange<Slice>, slices: seq<Slice>, service: Key)
    requires Applicable(c, slices) && forall s :: s in Touched(c, slices) ==> !BelongsTo(s, service)
    ensures SlicesOf(Apply(c, slices), service) == SlicesOf(slices, service)
  {
    var pre, was, now, post := ChangeSplits(c, slices);
    NoneBelong(was, service);
    NoneBelong(now, service);
    SlicesOfAppend(pre + was, post, service);
    SlicesOfAppend(pre, was, service);
    SlicesOfAppend(pre + now, post, service);
    SlicesOfAppend(pre, now, service);
  }

  /** The parts of the world that a reconcile of `k` can see. */
  ghost predicate LooksSame(a: World, b: World, k: Key) {
    && Matching(a.listeners, k) == Matching(b.listeners, k)
    && Matching(a.clusters, k) == Matching(b.clusters, k)
    && Matching(a.routes, k) == Matching(b.routes, k)
    && Matching(a.scopedRoutes, k) == Matching(b.scopedRoutes, k)
    && Matching(a.assignments, k) == Matching(b.assignments, k)
    && (forall c <- Matching(a.clusters, k) ::
        c.serviceRef.Some? ==> SlicesOf(a.slices, ServiceOf(c)) == SlicesOf(b.slices, ServiceOf(c)))
  }

  /** A change whose event does not request `k` is invisible to the reconciles of `k`. */
  lemma {:induction false} UnrequestedLooksSame(ch: Change, w: World, k: Key)
    requires Possible(ch, w) && !Requests(Changed(ch, w), EventOf(ch, w), k)
    ensures LooksSame(w, Changed(ch, w), k)
  {
    match ch
    case ItemChange(kind, c) =>
      UnmappedItems(kind, c, w, k);
    case SliceChange(c) =>
      forall cluster | cluster in Matching(w.clusters, k) && cluster.serviceRef.Some?
        ensures SlicesOf(w.slices, ServiceOf(cluster)) == SlicesOf(Apply(c, w.slices), ServiceOf(cluster))
      {
        UnmappedSlices(c, w, k, cluster);
      }
    case _ =>
  }

  lemma {:induction false} UnmappedItems(kind: Kind, c: ListChange<Item>, w: World, k: Key)
    requires Applicable(c, ItemsOf(w, kind)) && forall x :: x in Touched(c, ItemsOf(w, kind)) ==> TargetOf(x) != k
    ensures LooksSame(w, WithItems(w, kind, Apply(c, ItemsOf(w, kind))), k)
  {
    MatchingUnaffected(c, ItemsOf(w, kind), k);
    match kind
    case ListenerKind =>
    case ClusterKind =>
    case RouteKind =>
    case ScopedRouteKind =>
    case EndpointKind =>
  }

  lemma {:induction false} UnmappedSlices(c: ListChange<Slice>, w: World, k: Key, cluster: Item)
    requires Applicable(c, w.slices) && forall s :: s in Touched(c, w.slices) ==> !SliceMapsTo(w.clusters, s, k)
    requires cluster in Matching(w.clusters, k) && cluster.serviceRef.Some?
    ensures SlicesOf(w.slices, ServiceOf(cluster)) == SlicesOf(Apply(c, w.slices), ServiceOf(cluster))
  {
    MatchingHolds(w.clusters, k, cluster);
    assert forall s :: s in Touched(c, w.slices) ==> !Feeds(s, cluster, k);
    SlicesUnaffected(c, w.slices, ServiceOf(cluster));
  }

  lemma {:induction false} SameSliceLists(a: World, b: World, k: Key, clusters: seq<Item>)
    requires LooksSame(a, b, k)
    requires forall c <- clusters :: c in Matching(a.clusters, k) && c.serviceRef.Some?
    ensures SliceLists(clusters, a.slices) == SliceLists(clusters, b.slices)
  {
    forall i | 0 <= i < |clusters| ensures SliceLists(clusters, a.slices)[i] == SliceLists(clusters, b.slices)[i] {
      assert clusters[i] in clusters;
    }
  }

  lemma {:induction false} LooksSameReads(codec: Codec, a: World, b: World, k: Key, p: Progress)
    requires LooksSame(a, b, k)
    ensures ReadAll(codec, a, k) == ReadAll(codec, b, k)
    ensures UpToDate(codec, a, k, p) ==> UpToDate(codec, b, k, p)
  {
    SameSliceLists(a, b, k, Synthesising(codec, Matching(a.clusters, k), Matching(a.assignments, k)));
    if UpToDate(codec, a, k, p) && p.stage >= 5 {
      SameSliceLists(a, b, k, Needed(codec, p));
    }
  }

  /** A request that is awaited stays so: if a cluster change ends it, the change's own event takes over. */
  lemma {:induction false} AwaitedSurvives(ch: Change, w: World, inflight: seq<Event>, k: Key)
    requires Possible(ch, w) && Awaited(w, inflight, k)
    ensures Awaited(Changed(ch, w), inflight + [EventOf(ch, w)], k)
  {
    var ev :| ev in inflight && Requests(w, ev, k);
    var w', mine := Changed(ch, w), EventOf(ch, w);
    if !Requests(w', ev, k) {
      var s :| s in ev.slices && SliceMapsTo(w.clusters, s, k);
      var c :| c in w.clusters && Feeds(s, c, k);
      assert !SliceMapsTo(w'.clusters, s, k);
      assert c !in w'.clusters;
      GoneIsTouched(ch.items, w.clusters, c);
      assert TargetOf(c) == k;
      assert Requests(w', mine, k);
    }
  }

  lemma {:induction false} GoneIsTouched(c: ListChange<Item>, items: seq<Item>, x: Item)
    requires Applicable(c, items) && x in items && x !in Apply(c, items)
    ensures x in Touched(c, items)
  {
    var pre, was, now, post := ChangeSplits(c, items);
    assert x in pre + was + post && x !in pre + now + post;
    assert x in was;
  }

  // ----- Each step keeps the invariant -----

  lemma {:induction false} EnvironmentKeeps(codec: Codec, st: State, ch: Change)
    requires Inv(codec, st) && Possible(ch, st.world)
    ensures Inv(codec, Next(codec, st, Environment(ch)))
  {
    var st' := Next(codec, st, Environment(ch));
    forall k ensures Due(st, k) ==> Due(st', k) {
      if Awaited(st.world, st.inflight, k) {
        AwaitedSurvives(ch, st.world, st.inflight, k);
      }
    }
    forall k ensures Due(st', k) || LooksSame(st.world, st'.world, k) {
      var ev := EventOf(ch, st.world);
      if Requests(st'.world, ev, k) {
        assert ev in st'.inflight;
      } else {
        UnrequestedLooksSame(ch, st.world, k);
      }
    }
    forall k | k in st'.active ensures ActiveOk(codec, st', k) {
      assert ActiveOk(codec, st, k);
      if !Due(st', k) {
        LooksSameReads(codec, st.world, st'.world, k, st.active[k]);
      }
    }
    forall k | k in st'.world.proxies ensures ProxyOk(codec, st', k) {
      if k in st.world.proxies {
        assert ProxyOk(codec, st, k);
        if !Due(st', k) && k !in st.active {
          LooksSameReads(codec, st.world, st'.world, k, StartOfReads());
        }
      } else {
        assert EventOf(ch, st.world) in st'.inflight && Requests(st'.world, EventOf(ch, st.world), k);
      }
    }
  }

  lemma {:induction false} MappedIsRequested(w: World, ev: Event, k: Key)
    ensures k in Mapped(w, ev) <==> Requests(w, ev, k)
  {
    match ev
    case ItemEvent(items) =>
    case SliceEvent(slices) =>
      if Requests(w, ev, k) {
        var s :| s in slices && SliceMapsTo(w.clusters, s, k);
        var c :| c in w.clusters && Feeds(s, c, k);
        assert TargetOf(c) == k && Feeds(s, c, TargetOf(c));
      }
    case ProxyEvent(key) =>
  }

  lemma {:induction false} DeliverKeeps(codec: Codec, st: State, i: nat)
    requires Inv(codec, st) && i < |st.inflight|
    ensures Inv(codec, Next(codec, st, Deliver(i)))
  {
    var st' := Next(codec, st, Deliver(i));
    forall k ensures Due(st, k) ==> Due(st', k) {
      if Awaited(st.world, st.inflight, k) {
        var ev :| ev in st.inflight && Requests(st.world, ev, k);
        MappedIsRequested(st.world, ev, k);
        if ev != st.inflight[i] {
          assert ev in st'.inflight;
        }
      }
    }
    OnlyPendingGrew(codec, st, st');
  }

  /** A request of a slice event is one of the objects that were mapped or of those that were not. */
  lemma SplitRequest(w: World, slices: set<Slice>, lost: set<Slice>, k: Key)
    requires Requests(w, SliceEvent(slices), k)
    ensures Requests(w, SliceEvent(lost), k) || Requests(w, SliceEvent(slices - lost), k)
  {
  }

  lemma {:induction false} DropKeeps(codec: Codec, st: State, i: nat, lost: set<Slice>)
    requires Inv(codec, st) && Enabled(codec, st, Drop(i, lost))
    ensures Inv(codec, Next(codec, st, Drop(i, lost)))
  {
    var st' := Next(codec, st, Drop(i, lost));
    forall k ensures Due(st, k) ==> Due(st', k) {
      if Awaited(st.world, st.inflight, k) {
        var ev :| ev in st.inflight && Requests(st.world, ev, k);
        if ev == st.inflight[i] {
          SplitRequest(st.world, ev.slices, lost, k);
          MappedIsRequested(st.world, SliceEvent(lost), k);
          MappedIsRequested(st.world, SliceEvent(ev.slices - lost), k);
        } else {
          assert ev in st'.inflight;
        }
      }
    }
    OnlyPendingGrew(codec, st, st');
  }

  /** A step that touches neither the world, nor reconciles, nor the cache, and loses no request. */
  lemma {:induction false} OnlyPendingGrew(codec: Codec, st: State, st': State)
    requires Inv(codec, st)
    requires st'.world == st.world && st'.active == st.active && st'.cache == st.cache && st'.written == st.written
    requires forall k :: Due(st, k) ==> Due(st', k)
    ensures Inv(codec, st')
  {
    forall k | k in st'.active ensures ActiveOk(codec, st', k) {
      assert ActiveOk(codec, st, k);
    }
    forall k | k in st'.world.proxies ensures ProxyOk(codec, st', k) {
      assert ProxyOk(codec, st, k);
    }
  }

  lemma {:induction false} BeginKeeps(codec: Codec, st: State, key: Key)
    requires Inv(codec, st) && key in st.queue && key !in st.active
    ensures Inv(codec, Next(codec, st, Begin(key)))
  {
    var st' := Next(codec, st, Begin(key));
    assert forall k :: k != key && Due(st, k) ==> Due(st', k);
    forall k | k in st'.active ensures ActiveOk(codec, st', k) {
      if k == key {
        assert ProxyOk(codec, st, k);
      } else {
        assert ActiveOk(codec, st, k);
      }
    }
    forall k | k in st'.world.proxies ensures ProxyOk(codec, st', k) {
      assert ProxyOk(codec, st, k);
    }
  }

  lemma {:induction false} ReadKeepsUpToDate(codec: Codec, w: World, k: Key, p: Progress)
    requires WellFormed(codec, p) && CanRead(codec, p)
    ensures WellFormed(codec, ReadOne(codec, w, k, p))
    ensures UpToDate(codec, w, k, p) ==> UpToDate(codec, w, k, ReadOne(codec, w, k, p))
  {
    var q := ReadOne(codec, w, k, p);
    if p.stage == 5 && UpToDate(codec, w, k, p) {
      var n, lists := |p.got.slices|, SliceLists(Needed(codec, p), w.slices);
      assert Needed(codec, q) == Needed(codec, p);
      assert lists[..n + 1] == lists[..n] + [lists[n]];
    }
  }

  lemma {:induction false} ReadKeeps(codec: Codec, st: State, key: Key)
    requires Inv(codec, st) && Enabled(codec, st, Read(key))
    ensures Inv(codec, Next(codec, st, Read(key)))
  {
    var st' := Next(codec, st, Read(key));
    assert ActiveOk(codec, st, key);
    ReadKeepsUpToDate(codec, st.world, key, st.active[key]);
    assert forall k :: Due(st, k) <==> Due(st', k);
    forall k | k in st'.active ensures ActiveOk(codec, st', k) {
      assert ActiveOk(codec, st, k);
    }
    forall k | k in st'.world.proxies ensures ProxyOk(codec, st', k) {
      assert ProxyOk(codec, st, k);
    }
  }

  /** When nothing was missed, the finished reads are those of the current world. */
  lemma {:induction false} FinishedIsReadAll(codec: Codec, w: World, k: Key, p: Progress)
    requires Finished(codec, p) && UpToDate(codec, w, k, p)
    ensures p.got == ReadAll(codec, w, k)
  {
    var lists := SliceLists(Needed(codec, p), w.slices);
    assert lists[..|lists|] == lists;
  }

  /** The commit of one proxy leaves every other proxy as it was, since node ids differ. */
  lemma {:induction false} CommitKeepsOthers(codec: Codec, st: State, key: Key, n: nat, k: Key)
    requires Enabled(codec, st, Commit(key, n)) && DotFree(key.namespace) && DotFree(k.namespace) && k != key
    requires Coherent(codec, st, k)
    ensures Coherent(codec, Committed(codec, st, key, n), k)
  {
    if NodeId(k) == NodeId(key) {
      NodeIdInjective(k, key);
    }
    var st', id := Committed(codec, st, key, n), NodeId(k);
    assert st'.world == st.world && id in st'.cache && st'.cache[id] == st.cache[id];
  }

  /** The committing proxy is queued again, or coherent if it missed nothing. */
  lemma {:induction false} CommitIsCoherent(codec: Codec, st: State, key: Key, n: nat)
    requires Enabled(codec, st, Commit(key, n))
    ensures var st' := Committed(codec, st, key, n);
            key in st'.queue || !UpToDate(codec, st.world, key, st.active[key]) || Coherent(codec, st', key)
  {
    if UpToDate(codec, st.world, key, st.active[key]) {
      FinishedIsReadAll(codec, st.world, key, st.active[key]);
    }
  }

  lemma {:induction false} CommitKeepsRequests(codec: Codec, st: State, key: Key, n: nat, k: Key)
    requires Enabled(codec, st, Commit(key, n)) && Due(st, k)
    ensures Due(Committed(codec, st, key, n), k)
  {
    if Awaited(st.world, st.inflight, k) {
      var ev :| ev in st.inflight && Requests(st.world, ev, k);
      assert ev in Committed(codec, st, key, n).inflight;
    }
  }

  lemma {:induction false} CommitKeepsActive(codec: Codec, st: State, key: Key, n: nat, k: Key)
    requires Enabled(codec, st, Commit(key, n)) && ActiveOk(codec, st, k) && k != key
    ensures ActiveOk(codec, Committed(codec, st, key, n), k)
  {
    if Due(st, k) {
      CommitKeepsRequests(codec, st, key, n, k);
    }
  }

  lemma {:induction false} CommitKeepsProxy(codec: Codec, st: State, key: Key, n: nat, k: Key)
    requires Enabled(codec, st, Commit(key, n)) && ProxyOk(codec, st, k) && ActiveOk(codec, st, key)
    ensures ProxyOk(codec, Committed(codec, st, key, n), k)
  {
    if Due(st, k) {
      CommitKeepsRequests(codec, st, key, n, k);
    } else if k == key {
      CommitIsCoherent(codec, st, key, n);
    } else if k !in st.active {
      CommitKeepsOthers(codec, st, key, n, k);
    }
  }

  lemma {:induction false} CommitKeepsLastGood(codec: Codec, st: State, key: Key, n: nat)
    requires Enabled(codec, st, Commit(key, n)) && LastGood(codec, st)
    ensures LastGood(codec, Committed(codec, st, key, n))
  {
    var st', out := Committed(codec, st, key, n), OutcomeOf(codec, st.active[key].got);
    forall id | id in st'.cache ensures id in st'.written && BuiltFrom(codec, st'.written[id], st'.cache[id]) {
      if out.Good? && id == NodeId(key) {
        assert BuiltFrom(codec, st.active[key].got, out.snapshot);
      } else {
        assert id in st.cache && BuiltFrom(codec, st.written[id], st.cache[id]);
      }
    }
  }

  lemma {:induction false} CommitKeeps(codec: Codec, st: State, key: Key, n: nat)
    requires Inv(codec, st) && Enabled(codec, st, Commit(key, n))
    ensures Inv(codec, Next(codec, st, Commit(key, n)))
  {
    var st' := Committed(codec, st, key, n);
    CommitKeepsLastGood(codec, st, key, n);
    forall k | k in st'.active ensures ActiveOk(codec, st', k) {
      CommitKeepsActive(codec, st, key, n, k);
    }
    forall k | k in st'.world.proxies ensures ProxyOk(codec, st', k) {
      CommitKeepsProxy(codec, st, key, n, k);
    }
  }

  lemma {:induction false} AbortKeeps(codec: Codec, st: State, key: Key)
    requires Inv(codec, st) && key in st.active
    ensures Inv(codec, Next(codec, st, Abort(key)))
  {
    var st' := Next(codec, st, Abort(key));
    assert forall k :: Due(st, k) ==> Due(st', k);
    forall k | k in st'.active ensures ActiveOk(codec, st', k) {
      assert ActiveOk(codec, st, k);
    }
    forall k | k in st'.world.proxies ensures ProxyOk(codec, st', k) {
      assert ProxyOk(codec, st, k);
    }
  }

  lemma {:induction false} StepKeeps(codec: Codec, st: State, step: Step)
    requires Inv(codec, st) && Enabled(codec, st, step)
    ensures Inv(codec, Next(codec, st, step))
  {
    match step
    case Environment(ch) => EnvironmentKeeps(codec, st, ch);
    case Deliver(i) => DeliverKeeps(codec, st, i);
    case Drop(i, lost) => DropKeeps(codec, st, i, lost);
    case Begin(k) => BeginKeeps(codec, st, k);
    case Read(k) => ReadKeeps(codec, st, k);
    case Commit(k, n) => CommitKeeps(codec, st, k, n);
    case Abort(k) => AbortKeeps(codec, st, k);
  }

  lemma {:induction false} RunKeeps(codec: Codec, st: State, steps: seq<Step>, end: State)
    requires Initial(st) && Runs(codec, st, steps, end)
    ensures Inv(codec, end)
    decreases |steps|
  {
    if steps != [] {
      var n := |steps| - 1;
      var mid :| Runs(codec, st, steps[..n], mid) && Enabled(codec, mid, steps[n]) && Next(codec, mid, steps[n]) == end;
      RunKeeps(codec, st, steps[..n], mid);
      StepKeeps(codec, mid, steps[n]);
    }
  }

  /**
   * Cache coherence: after any run, each existing proxy is about to be reconciled, is being
   * reconciled, or has the from-scratch build of the current world in the cache, unless its
   * request was dropped with an event and no reconcile of it has begun since.
   */
  lemma {:induction false} CacheCoherence(codec: Codec, st: State, steps: seq<Step>, end: State, k: Key)
    requires Initial(st) && Runs(codec, st, steps, end) && k in end.world.proxies
    ensures Pending(end, k) || k in end.active || Coherent(codec, end, k) || k in end.missed
    ensures end.queue == {} && end.active == map[] && end.inflight == [] && k !in end.missed ==> Coherent(codec, end, k)
  {
    RunKeeps(codec, st, steps, end);
    assert ProxyOk(codec, end, k);
  }

  /** While the mapper's List succeeds no request is missed. */
  lemma {:induction false} NothingMissed(codec: Codec, st: State, steps: seq<Step>, end: State)
    requires Initial(st) && Runs(codec, st, steps, end) && forall i | 0 <= i < |steps| :: !steps[i].Drop?
    ensures end.missed == {}
    decreases |steps|
  {
    if steps != [] {
      var n := |steps| - 1;
      var mid :| Runs(codec, st, steps[..n], mid) && Enabled(codec, mid, steps[n]) && Next(codec, mid, steps[n]) == end;
      NothingMissed(codec, st, steps[..n], mid);
      OnlyDropsMiss(codec, mid, steps[n]);
    }
  }

  lemma {:induction false} OnlyDropsMiss(codec: Codec, st: State, step: Step)
    requires Enabled(codec, st, step) && !step.Drop?
    ensures Next(codec, st, step).missed <= st.missed
  {
  }

  /**
   * Last good snapshot: after any run, each cached snapshot is the complete build of what one
   * reconcile read, all of whose non-empty specs decoded.
   */
  lemma {:induction false} LastGoodSnapshot(codec: Codec, st: State, steps: seq<Step>, end: State, id: string)
    requires Initial(st) && Runs(codec, st, steps, end) && id in end.cache
    ensures id in end.written && Complete(codec, end.written[id])
            && OutcomeOf(codec, end.written[id]) == Good(end.cache[id])
    ensures EndpointsOf(codec, end.written[id]).Collected?
    ensures forall kind :: Decodes(codec, kind, SpecsOf(SpecsRead(codec, end.written[id]), kind))
  {
    RunKeeps(codec, st, steps, end);
    GoodDecodes(codec, end.written[id]);
  }

  function SpecsRead(codec: Codec, r: Reads): Specs
    requires Complete(codec, r) && EndpointsOf(codec, r).Collected?
  {
    Specs(SpecList(r.listeners), SpecList(r.clusters), SpecList(r.routes), SpecList(r.scopedRoutes),
          EndpointsOf(codec, r).specs)
  }

  lemma {:induction false} GoodDecodes(codec: Codec, r: Reads)
    requires Complete(codec, r)
    ensures OutcomeOf(codec, r).Good? <==>
              && EndpointsOf(codec, r).Collected?
              && forall kind :: Decodes(codec, kind, SpecsOf(SpecsRead(codec, r), kind))
  {
    if EndpointsOf(codec, r).Collected? {
      AllOrNothing(codec, codec.digest(HashInput(r, EndpointsOf(codec, r).versions)), SpecsRead(codec, r));
    }
  }

  /** A step changes the cache only at the proxy that commits, and only if all it read decodes. */
  lemma {:induction false} OnlyGoodCommitsWrite(codec: Codec, st: State, step: Step, id: string)
    requires Enabled(codec, st, step)
    requires !(step.Commit? && NodeId(step.key) == id && OutcomeOf(codec, st.active[step.key].got).Good?)
    ensures var after := Next(codec, st, step).cache;
            (id in after <==> id in st.cache) && (id in st.cache ==> after[id] == st.cache[id])
  {
  }
}
