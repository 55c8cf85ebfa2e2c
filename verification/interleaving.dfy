/**
 * Reconciles whose List calls see different moments: which reads they can end with, and when two of
 * them have the same snapshot version.
 */
module Interleaving {
  import opened Options
  import opened DottedNames
  import opened Mesh
  import opened Eds
  import opened Snapshots
  import opened Collect
  import opened Version
  import opened Coherence

  // ----- Clusters that share a Service -----

  /** `n` lists, all empty but list `i`, which holds the slice. */
  function Lone(n: nat, i: nat, s: Slice): seq<seq<Slice>> {
    seq(n, m => if m == i then [s] else [])
  }

  lemma {:induction false} LoneFlat(n: nat, i: nat, s: Slice)
    ensures FlatSlices(Lone(n, i, s)) == if i < n then [s] else []
  {
    if n > 0 {
      LoneFlat(n - 1, i, s);
      assert Lone(n, i, s)[..n - 1] == Lone(n - 1, i, s);
    }
  }

  /** The reads with a slice that only one of the List calls for slices has seen. */
  function SeenBy(codec: Codec, r: Reads, i: nat, s: Slice): Reads {
    r.(slices := Lone(|ServicesRead(codec, r)|, i, s))
  }

  lemma {:induction false} SeenByTrace(codec: Codec, r: Reads, i: nat, s: Slice)
    requires i < |ServicesRead(codec, r)|
    ensures Trace(SeenBy(codec, r, i, s)) == Trace(r.(slices := [])) + [SliceObject(s)]
  {
    LoneFlat(|ServicesRead(codec, r)|, i, s);
    assert SliceObjects([s]) == [SliceObject(s)] && SliceObjects([]) == [];
  }

  lemma {:induction false} SeenByListed(codec: Codec, proxy: Key, r: Reads, i: nat, s: Slice)
    requires Listed(codec, proxy, r) && i < |ServicesRead(codec, r)| && BelongsTo(s, ServicesRead(codec, r)[i])
    ensures Listed(codec, proxy, SeenBy(codec, r, i, s))
  {
    var services, lists := ServicesRead(codec, r), SeenBy(codec, r, i, s).slices;
    forall m, x | 0 <= m < |lists| && x in lists[m] ensures BelongsTo(x, services[m]) {
      assert m == i && x == s;
    }
  }

  /** No object read so far has the version of the slice, and the versions read identify objects. */
  ghost predicate FreshFor(s: Slice, r: Reads) {
    var os := Trace(r.(slices := []));
    IdentifiedIn(os, os) && forall o <- os :: VersionOf(o) != s.resourceVersion
  }

  /** The assignment synthesised for the i-th cluster that needs one. */
  function AssignmentFor(codec: Codec, r: Reads, i: nat): Assignment
    requires Complete(codec, r) && i < |r.slices|
  {
    var c := Synthesising(codec, r.clusters, r.assignments)[i];
    assert c in Synthesising(codec, r.clusters, r.assignments);
    Synthesized(ClusterName(codec, c.spec), r.slices[i], c.serviceRef.value.port)
  }

  /**
   * Two clusters share a Service: a slice that one reconcile sees for the first of them only, and
   * another for the second only, gives different reads and, if it offers endpoints, different
   * assignments, but the same hash input.
   */
  lemma {:induction false} SharedServiceCollides(codec: Codec, proxy: Key, r: Reads, i: nat, j: nat, s: Slice)
    requires Listed(codec, proxy, r) && i < j < |ServicesRead(codec, r)|
    requires ServicesRead(codec, r)[i] == ServicesRead(codec, r)[j]
    requires BelongsTo(s, ServicesRead(codec, r)[i]) && FreshFor(s, r)
    ensures var a, b := SeenBy(codec, r, i, s), SeenBy(codec, r, j, s);
            && Listed(codec, proxy, a) && Listed(codec, proxy, b) && Identified(a, b)
            && Input(a) == Input(b) && a != b
            && (AssignmentFor(codec, a, i).localities != [] ==>
                  AssignmentFor(codec, a, i) != AssignmentFor(codec, b, i))
  {
    var a, b := SeenBy(codec, r, i, s), SeenBy(codec, r, j, s);
    SeenByListed(codec, proxy, r, i, s);
    SeenByListed(codec, proxy, r, j, s);
    SeenByTrace(codec, r, i, s);
    SeenByTrace(codec, r, j, s);
    TraceVersions(a);
    TraceVersions(b);
    assert a.slices[i] == [s] && b.slices[i] == [];
  }

  // ----- Runs in which no two objects of a kind ever have the same namespace and name -----

  ghost predicate NamedStep(codec: Codec, st: State, step: Step, end: State) {
    Enabled(codec, st, step) && Next(codec, st, step) == end && WellNamed(end.world)
  }

  /** The states before, between and after the steps. */
  ghost predicate Through(codec: Codec, states: seq<State>, steps: seq<Step>) {
    && |states| == |steps| + 1 && WellNamed(states[0].world)
    && forall i | 0 <= i < |steps| :: StepAt(codec, states, steps, i)
  }

  ghost predicate StepAt(codec: Codec, states: seq<State>, steps: seq<Step>, i: nat)
    requires |states| == |steps| + 1 && i < |steps|
  {
    NamedStep(codec, states[i], steps[i], states[i + 1])
  }

  ghost predicate Connects(codec: Codec, states: seq<State>, st: State, steps: seq<Step>, end: State) {
    Through(codec, states, steps) && states[0] == st && states[|steps|] == end
  }

  ghost predicate NamedRun(codec: Codec, st: State, steps: seq<Step>, end: State) {
    exists states :: Connects(codec, states, st, steps, end)
  }

  lemma {:induction false} NamedRunIsRun(codec: Codec, st: State, steps: seq<Step>, end: State)
    requires NamedRun(codec, st, steps, end)
    ensures Runs(codec, st, steps, end)
  {
    var states :| Connects(codec, states, st, steps, end);
    RunUpTo(codec, states, steps, |steps|);
    assert steps[..|steps|] == steps;
  }

  lemma {:induction false} RunUpTo(codec: Codec, states: seq<State>, steps: seq<Step>, i: nat)
    requires Through(codec, states, steps) && i <= |steps|
    ensures Runs(codec, states[0], steps[..i], states[i])
    decreases i
  {
    if i > 0 {
      RunUpTo(codec, states, steps, i - 1);
      assert StepAt(codec, states, steps, i - 1);
      assert steps[..i][..i - 1] == steps[..i - 1] && steps[..i][i - 1] == steps[i - 1];
    }
  }

  lemma NoStep(codec: Codec, st: State)
    requires WellNamed(st.world)
    ensures NamedRun(codec, st, [], st)
  {
    assert Connects(codec, [st], st, [], st);
  }

  lemma {:induction false} OneStep(codec: Codec, st: State, step: Step, end: State)
    requires WellNamed(st.world) && NamedStep(codec, st, step, end)
    ensures NamedRun(codec, st, [step], end)
  {
    assert StepAt(codec, [st, end], [step], 0);
    assert Connects(codec, [st, end], st, [step], end);
  }

  lemma {:induction false} Joined(codec: Codec, st: State, xs: seq<Step>, mid: State, ys: seq<Step>, end: State)
    requires NamedRun(codec, st, xs, mid) && NamedRun(codec, mid, ys, end)
    ensures NamedRun(codec, st, xs + ys, end)
  {
    var a :| Connects(codec, a, st, xs, mid);
    var b :| Connects(codec, b, mid, ys, end);
    ThroughBoth(codec, a, xs, b, ys);
    assert Connects(codec, a + b[1..], st, xs + ys, end);
  }

  lemma {:induction false} ThroughBoth(codec: Codec, a: seq<State>, xs: seq<Step>, b: seq<State>, ys: seq<Step>)
    requires Through(codec, a, xs) && Through(codec, b, ys) && a[|xs|] == b[0]
    ensures Through(codec, a + b[1..], xs + ys) && (a + b[1..])[|xs + ys|] == b[|ys|]
  {
    var states, steps, n := a + b[1..], xs + ys, |xs|;
    forall i | 0 <= i < |steps| ensures StepAt(codec, states, steps, i) {
      if i < n {
        assert StepAt(codec, a, xs, i);
      } else {
        assert StepAt(codec, b, ys, i - n);
        assert states[i] == b[i - n] && states[i + 1] == b[i - n + 1];
      }
    }
  }

  /** The world at the end of a run is properly named. */
  lemma EndNamed(codec: Codec, st: State, steps: seq<Step>, end: State)
    requires NamedRun(codec, st, steps, end)
    ensures WellNamed(end.world)
  {
    var states :| Connects(codec, states, st, steps, end);
    if steps != [] {
      var n := |steps| - 1;
      assert StepAt(codec, states, steps, n);
    }
  }

  // ----- What a reconcile can have read -----

  /** What a reconcile under way has read could become the reads of a finished one. */
  ghost predicate Gathering(codec: Codec, k: Key, p: Progress) {
    && ListedFor(p.got.listeners, k) && ListedFor(p.got.clusters, k) && ListedFor(p.got.routes, k)
    && ListedFor(p.got.scopedRoutes, k) && ListedFor(p.got.assignments, k)
    && WellFormed(codec, p)
    && (p.stage == 5 ==> Sorted(ServicesRead(codec, p.got)[..|p.got.slices|], p.got.slices))
    && forall l <- p.got.slices :: NamedSlices(l)
  }

  /** Every reconcile under way gathers, and every cached snapshot was made of such reads. */
  ghost predicate Gathers(codec: Codec, st: State) {
    && (forall k | k in st.active :: Gathering(codec, k, st.active[k]))
    && (forall k: Key | DotFree(k.namespace) && NodeId(k) in st.written :: Listed(codec, k, st.written[NodeId(k)]))
  }

  lemma {:induction false} ReadGathers(codec: Codec, w: World, k: Key, p: Progress)
    requires WellNamed(w) && Gathering(codec, k, p) && CanRead(codec, p)
    ensures Gathering(codec, k, ReadOne(codec, w, k, p))
  {
    match p.stage
    case 0 => MatchingNamed(w.listeners, k);
    case 1 => MatchingNamed(w.clusters, k);
    case 2 => MatchingNamed(w.routes, k);
    case 3 => MatchingNamed(w.scopedRoutes, k);
    case 4 => MatchingNamed(w.assignments, k);
    case _ => SliceReadGathers(codec, w, k, p);
  }

  lemma {:induction false} SliceReadGathers(codec: Codec, w: World, k: Key, p: Progress)
    requires WellNamed(w) && Gathering(codec, k, p) && CanRead(codec, p) && p.stage == 5
    ensures Gathering(codec, k, ReadOne(codec, w, k, p))
  {
    var q, n, services := ReadOne(codec, w, k, p), |p.got.slices|, ServicesRead(codec, p.got);
    var more := SlicesOf(w.slices, services[n]);
    assert q.got.slices == p.got.slices + [more] && ServicesRead(codec, q.got) == services;
    SlicesNamed(w.slices, services[n]);
    forall i, s | 0 <= i <= n && s in q.got.slices[i] ensures BelongsTo(s, services[i]) {
      if i == n {
        SlicesOfHolds(w.slices, services[n], s);
      } else {
        assert s in p.got.slices[i];
        assert BelongsTo(s, services[..n][i]);
      }
    }
  }

  lemma FinishedIsListed(codec: Codec, k: Key, p: Progress)
    requires Gathering(codec, k, p) && Finished(codec, p)
    ensures Listed(codec, k, p.got)
  {
    var services := ServicesRead(codec, p.got);
    assert services[..|services|] == services;
  }

  lemma {:induction false} CommitGathers(codec: Codec, st: State, key: Key, n: nat)
    requires Inv(codec, st) && Gathers(codec, st) && Enabled(codec, st, Commit(key, n))
    ensures Gathers(codec, Next(codec, st, Commit(key, n)))
  {
    var st' := Committed(codec, st, key, n);
    assert ActiveOk(codec, st, key);
    FinishedIsListed(codec, key, st.active[key]);
    forall k: Key | DotFree(k.namespace) && NodeId(k) in st'.written ensures Listed(codec, k, st'.written[NodeId(k)]) {
      if NodeId(k) == NodeId(key) {
        NodeIdInjective(k, key);
      }
    }
  }

  lemma {:induction false} StepGathers(codec: Codec, st: State, step: Step)
    requires Inv(codec, st) && WellNamed(st.world) && Gathers(codec, st) && Enabled(codec, st, step)
    ensures Gathers(codec, Next(codec, st, step))
  {
    match step
    case Read(k) => ReadGathers(codec, st.world, k, st.active[k]);
    case Commit(k, n) => CommitGathers(codec, st, k, n);
    case _ =>
  }

  lemma {:induction false} RunGathers(codec: Codec, st: State, steps: seq<Step>, end: State)
    requires Initial(st) && NamedRun(codec, st, steps, end)
    ensures Gathers(codec, end) && Inv(codec, end) && WellNamed(end.world)
  {
    var states :| Connects(codec, states, st, steps, end);
    GathersUpTo(codec, states, steps, |steps|);
  }

  lemma {:induction false} GathersUpTo(codec: Codec, states: seq<State>, steps: seq<Step>, i: nat)
    requires Through(codec, states, steps) && Initial(states[0]) && i <= |steps|
    ensures Gathers(codec, states[i]) && Inv(codec, states[i]) && WellNamed(states[i].world)
    decreases i
  {
    if i == 0 {
      RunKeeps(codec, states[0], [], states[0]);
    } else {
      GathersUpTo(codec, states, steps, i - 1);
      assert StepAt(codec, states, steps, i - 1);
      StepGathers(codec, states[i - 1], steps[i - 1]);
      StepKeeps(codec, states[i - 1], steps[i - 1]);
    }
  }

  // ----- Every such combination of lists is what some run ends with -----

  /** Nothing but the slices, and the events that tell of them, has changed. */
  ghost predicate OnlySlices(st: State, end: State, slices: seq<Slice>) {
    end == st.(world := st.world.(slices := slices), inflight := end.inflight)
  }

  lemma {:induction false} CreateSlices(codec: Codec, st: State, slices: seq<Slice>)
    returns (steps: seq<Step>, end: State)
    requires WellNamed(st.world) && st.world.slices == [] && NamedSlices(slices)
    ensures NamedRun(codec, st, steps, end) && OnlySlices(st, end, slices)
    decreases |slices|
  {
    if slices == [] {
      NoStep(codec, st);
      steps, end := [], st;
    } else {
      var n := |slices| - 1;
      var before, mid := CreateSlices(codec, st, slices[..n]);
      var step := Environment(SliceChange(Insert(n, slices[n])));
      assert Apply(Insert(n, slices[n]), slices[..n]) == slices;
      end := Next(codec, mid, step);
      OneStep(codec, mid, step, end);
      Joined(codec, st, before, mid, [step], end);
      steps := before + [step];
    }
  }

  lemma {:induction false} DeleteSlices(codec: Codec, st: State) returns (steps: seq<Step>, end: State)
    requires WellNamed(st.world)
    ensures NamedRun(codec, st, steps, end) && OnlySlices(st, end, [])
    decreases |st.world.slices|
  {
    if st.world.slices == [] {
      NoStep(codec, st);
      steps, end := [], st;
    } else {
      var n := |st.world.slices| - 1;
      var step := Environment(SliceChange(Remove(n)));
      assert Apply(Remove(n), st.world.slices) == st.world.slices[..n];
      var mid := Next(codec, st, step);
      OneStep(codec, st, step, mid);
      var rest;
      rest, end := DeleteSlices(codec, mid);
      Joined(codec, st, [step], mid, rest, end);
      steps := [step] + rest;
    }
  }

  /** The reconcile of `k` is at the given point of its reads, and otherwise only events were added. */
  ghost predicate Advanced(st: State, end: State, k: Key, p: Progress) {
    end == st.(active := st.active[k := p], inflight := end.inflight)
  }

  /** Slices come into being, one List call sees them, and they are gone again. */
  lemma {:induction false} SeeSlices(codec: Codec, st: State, k: Key, slices: seq<Slice>)
    returns (steps: seq<Step>, end: State)
    requires WellNamed(st.world) && st.world.slices == [] && NamedSlices(slices)
    requires k in st.active && st.active[k].stage == 5 && CanRead(codec, st.active[k])
    requires forall s <- slices :: BelongsTo(s, ServicesRead(codec, st.active[k].got)[|st.active[k].got.slices|])
    ensures NamedRun(codec, st, steps, end)
    ensures var p := st.active[k];
            Advanced(st, end, k, p.(got := p.got.(slices := p.got.slices + [slices])))
  {
    var created, mid := CreateSlices(codec, st, slices);
    var seen := SeeThem(codec, mid, k);
    OneStep(codec, mid, Read(k), seen);
    Joined(codec, st, created, mid, [Read(k)], seen);
    var deleted;
    deleted, end := DeleteSlices(codec, seen);
    Joined(codec, st, created + [Read(k)], seen, deleted, end);
    steps := created + [Read(k)] + deleted;
  }

  /** A List call that sees exactly the slices there are. */
  lemma {:induction false} SeeThem(codec: Codec, st: State, k: Key) returns (end: State)
    requires WellNamed(st.world) && k in st.active && st.active[k].stage == 5 && CanRead(codec, st.active[k])
    requires forall s <- st.world.slices ::
               BelongsTo(s, ServicesRead(codec, st.active[k].got)[|st.active[k].got.slices|])
    ensures NamedStep(codec, st, Read(k), end)
    ensures var p := st.active[k];
            end == st.(active := st.active[k := p.(got := p.got.(slices := p.got.slices + [st.world.slices]))])
  {
    var p := st.active[k];
    var service := ServicesRead(codec, p.got)[|p.got.slices|];
    OneService(st.world.slices, service, service);
    end := Next(codec, st, Read(k));
  }

  /** The reads with the slice lists of the first `n` clusters only. */
  function UpTo(r: Reads, n: nat): Reads
    requires n <= |r.slices|
  {
    r.(slices := r.slices[..n])
  }

  lemma {:induction false} SeeNextSlices(codec: Codec, st: State, k: Key, r: Reads, n: nat)
    returns (steps: seq<Step>, end: State)
    requires WellNamed(st.world) && st.world.slices == [] && Listed(codec, k, r) && n < |r.slices|
    requires k in st.active && st.active[k] == Progress(5, UpTo(r, n))
    ensures NamedRun(codec, st, steps, end) && Advanced(st, end, k, Progress(5, UpTo(r, n + 1)))
  {
    assert r.slices[n] in r.slices && r.slices[..n] + [r.slices[n]] == r.slices[..n + 1];
    steps, end := SeeSlices(codec, st, k, r.slices[n]);
  }

  lemma {:induction false} SeeAllSlices(codec: Codec, st: State, k: Key, r: Reads, n: nat)
    returns (steps: seq<Step>, end: State)
    requires WellNamed(st.world) && st.world.slices == [] && Listed(codec, k, r) && n <= |r.slices|
    requires k in st.active && st.active[k] == Progress(5, UpTo(r, 0))
    ensures NamedRun(codec, st, steps, end) && Advanced(st, end, k, Progress(5, UpTo(r, n)))
    decreases n
  {
    if n == 0 {
      NoStep(codec, st);
      steps, end := [], st;
    } else {
      var before, mid := SeeAllSlices(codec, st, k, r, n - 1);
      var last;
      last, end := SeeNextSlices(codec, mid, k, r, n - 1);
      Joined(codec, st, before, mid, last, end);
      steps := before + last;
    }
  }

  /** The world holds the items of the reads, for the proxy, and no slice. */
  ghost predicate Offers(w: World, k: Key, r: Reads) {
    && w.slices == [] && WellNamed(w) && k in w.proxies
    && Matching(w.listeners, k) == r.listeners && Matching(w.clusters, k) == r.clusters
    && Matching(w.routes, k) == r.routes && Matching(w.scopedRoutes, k) == r.scopedRoutes
    && Matching(w.assignments, k) == r.assignments
  }

  lemma {:induction false} ReadItems(codec: Codec, st: State, k: Key, r: Reads) returns (steps: seq<Step>, end: State)
    requires Offers(st.world, k, r) && k in st.active && st.active[k] == StartOfReads()
    ensures NamedRun(codec, st, steps, end) && Advanced(st, end, k, Progress(5, UpTo(r, 0)))
  {
    NoStep(codec, st);
    steps, end := [], st;
    for i := 0 to 5
      invariant NamedRun(codec, st, steps, end) && end.world == st.world
      invariant k in end.active && end.active[k].stage == i && end == st.(active := st.active[k := end.active[k]])
      invariant end.active[k].got == Reads(if i > 0 then r.listeners else [], if i > 1 then r.clusters else [],
                                           if i > 2 then r.routes else [], if i > 3 then r.scopedRoutes else [],
                                           if i > 4 then r.assignments else [], [])
    {
      var next := Next(codec, end, Read(k));
      OneStep(codec, end, Read(k), next);
      Joined(codec, st, steps, end, [Read(k)], next);
      steps, end := steps + [Read(k)], next;
    }
  }

  /** A requested reconcile begins, and the List calls for items see the world as it is. */
  lemma {:induction false} BeginAndReadItems(codec: Codec, st: State, k: Key, r: Reads)
    returns (steps: seq<Step>, end: State)
    requires Offers(st.world, k, r) && k in st.queue && k !in st.active
    ensures NamedRun(codec, st, steps, end) && end.world == st.world
    ensures end.active == st.active[k := Progress(5, UpTo(r, 0))]
  {
    var begun := Next(codec, st, Begin(k));
    OneStep(codec, st, Begin(k), begun);
    var items;
    items, end := ReadItems(codec, begun, k, r);
    Joined(codec, st, [Begin(k)], begun, items, end);
    steps := [Begin(k)] + items;
  }

  /** A requested reconcile can end with any such combination of lists. */
  lemma {:induction false} CanEndWith(codec: Codec, st: State, k: Key, r: Reads) returns (steps: seq<Step>, end: State)
    requires Listed(codec, k, r) && Offers(st.world, k, r) && k in st.queue && k !in st.active
    ensures NamedRun(codec, st, steps, end) && EndsWith(codec, end, k, r) && end.world == st.world
  {
    var items, mid := BeginAndReadItems(codec, st, k, r);
    var slices;
    slices, end := SeeAllSlices(codec, mid, k, r, |r.slices|);
    Joined(codec, st, items, mid, slices, end);
    steps := items + slices;
    assert UpTo(r, |r.slices|) == r;
  }

  /** A reconcile of the proxy is about to build its snapshot from the given reads. */
  ghost predicate EndsWith(codec: Codec, st: State, k: Key, r: Reads) {
    k in st.active && Finished(codec, st.active[k]) && st.active[k].got == r
  }

  /** Some run of the machine leads to it. */
  ghost predicate Obtainable(codec: Codec, k: Key, r: Reads) {
    exists st, steps, end :: Initial(st) && NamedRun(codec, st, steps, end) && EndsWith(codec, end, k, r)
  }

  /** At the start there is the proxy, the items of the reads, and nothing else. */
  function Start(k: Key, r: Reads): State {
    var world := World({k}, r.listeners, r.clusters, r.routes, r.scopedRoutes, r.assignments, []);
    State(world, {k}, map[], [], map[], map[], {})
  }

  lemma {:induction false} AllMatch(items: seq<Item>, k: Key)
    requires forall x <- items :: TargetMatches(x.targetRef, x.namespace, k)
    ensures Matching(items, k) == items
  {
    if items != [] {
      var n := |items| - 1;
      AllMatch(items[..n], k);
      assert items[n] in items && items == items[..n] + [items[n]];
    }
  }

  lemma StartOffers(codec: Codec, k: Key, r: Reads)
    requires Listed(codec, k, r) && DotFree(k.namespace)
    ensures Initial(Start(k, r)) && Offers(Start(k, r).world, k, r)
  {
    AllMatch(r.listeners, k);
    AllMatch(r.clusters, k);
    AllMatch(r.routes, k);
    AllMatch(r.scopedRoutes, k);
    AllMatch(r.assignments, k);
  }

  /**
   * The reads that reconciles of a proxy can end with are exactly these: item lists for the proxy
   * and one slice list for each cluster that needs one, of its Service, each properly named.
   */
  lemma {:induction false} ObtainableIffListed(codec: Codec, k: Key, r: Reads)
    requires DotFree(k.namespace)
    ensures Obtainable(codec, k, r) <==> Listed(codec, k, r)
  {
    if Obtainable(codec, k, r) {
      var st, steps, end :| Initial(st) && NamedRun(codec, st, steps, end) && EndsWith(codec, end, k, r);
      RunGathers(codec, st, steps, end);
      FinishedIsListed(codec, k, end.active[k]);
    }
    if Listed(codec, k, r) {
      StartOffers(codec, k, r);
      var steps, end := CanEndWith(codec, Start(k, r), k, r);
    }
  }

  // ----- Two reconciles of one run -----

  /** One run in which the proxy is reconciled with the given reads, commits, and is reconciled again later. */
  ghost predicate ReconciledTwice(codec: Codec, k: Key, a: Reads, b: Reads) {
    exists st, steps, mid, more: seq<Step>, end ::
      && Initial(st) && NamedRun(codec, st, steps, mid) && EndsWith(codec, mid, k, a)
      && NamedRun(codec, mid, more, end) && EndsWith(codec, end, k, b)
      && more != [] && more[0].Commit? && more[0].key == k
  }

  lemma {:induction false} TwiceListed(codec: Codec, k: Key, a: Reads, b: Reads)
    requires ReconciledTwice(codec, k, a, b)
    ensures Listed(codec, k, a) && Listed(codec, k, b)
  {
    var st, steps, mid, more: seq<Step>, end :|
      && Initial(st) && NamedRun(codec, st, steps, mid) && EndsWith(codec, mid, k, a)
      && NamedRun(codec, mid, more, end) && EndsWith(codec, end, k, b)
      && more != [] && more[0].Commit? && more[0].key == k;
    RunGathers(codec, st, steps, mid);
    Joined(codec, st, steps, mid, more, end);
    RunGathers(codec, st, steps + more, end);
    FinishedIsListed(codec, k, mid.active[k]);
    FinishedIsListed(codec, k, end.active[k]);
  }

  /** A commit whose status write changes something is followed by another reconcile. */
  lemma {:induction false} CommitAndAskAgain(codec: Codec, st: State, k: Key) returns (steps: seq<Step>, end: State)
    requires WellNamed(st.world) && k in st.active && Finished(codec, st.active[k])
    ensures NamedRun(codec, st, steps, end) && |steps| == 2 && steps[0] == Commit(k, 1)
    ensures end.world == st.world && k in end.queue && k !in end.active
  {
    var done, last := AskedByStatus(codec, st, k);
    end := Next(codec, done, Deliver(last));
    OneStep(codec, st, Commit(k, 1), done);
    OneStep(codec, done, Deliver(last), end);
    Joined(codec, st, [Commit(k, 1)], done, [Deliver(last)], end);
    steps := [Commit(k, 1)] + [Deliver(last)];
  }

  lemma {:induction false} AskedByStatus(codec: Codec, st: State, k: Key) returns (done: State, last: nat)
    requires WellNamed(st.world) && k in st.active && Finished(codec, st.active[k])
    ensures NamedStep(codec, st, Commit(k, 1), done)
    ensures Enabled(codec, done, Deliver(last))
    ensures NamedStep(codec, done, Deliver(last), Next(codec, done, Deliver(last)))
    ensures var end := Next(codec, done, Deliver(last)); end.world == st.world && k in end.queue && k !in end.active
  {
    done, last := Next(codec, st, Commit(k, 1)), |st.inflight|;
    assert done.inflight[last] == ProxyEvent(k);
  }

  lemma {:induction false} AnyTwoInOneRun(codec: Codec, k: Key, a: Reads, b: Reads)
    requires DotFree(k.namespace) && Listed(codec, k, a) && Listed(codec, k, b) && b == a.(slices := b.slices)
    ensures ReconciledTwice(codec, k, a, b)
  {
    StartOffers(codec, k, a);
    var steps, mid := CanEndWith(codec, Start(k, a), k, a);
    var more, end := CommitAndReadAgain(codec, mid, k, b);
  }

  lemma {:induction false} CommitAndReadAgain(codec: Codec, st: State, k: Key, r: Reads)
    returns (steps: seq<Step>, end: State)
    requires Listed(codec, k, r) && Offers(st.world, k, r) && k in st.active && Finished(codec, st.active[k])
    ensures NamedRun(codec, st, steps, end) && EndsWith(codec, end, k, r)
    ensures steps != [] && steps[0] == Commit(k, 1)
  {
    var commit, asked := CommitAndAskAgain(codec, st, k);
    var rest;
    rest, end := CanEndWith(codec, asked, k, r);
    Joined(codec, st, commit, asked, rest, end);
    steps := commit + rest;
  }

  /**
   * The version need not change with the configuration: whenever two clusters of a proxy share a
   * Service, one run reconciles the proxy twice with different reads and the same hash input.
   */
  lemma {:induction false} SharedServiceRun(codec: Codec, k: Key, r: Reads, i: nat, j: nat, s: Slice)
    requires DotFree(k.namespace) && Listed(codec, k, r) && i < j < |ServicesRead(codec, r)|
    requires ServicesRead(codec, r)[i] == ServicesRead(codec, r)[j]
    requires BelongsTo(s, ServicesRead(codec, r)[i]) && FreshFor(s, r)
    ensures var a, b := SeenBy(codec, r, i, s), SeenBy(codec, r, j, s);
            ReconciledTwice(codec, k, a, b) && Identified(a, b) && Input(a) == Input(b) && a != b
  {
    SharedServiceCollides(codec, k, r, i, j, s);
    AnyTwoInOneRun(codec, k, SeenBy(codec, r, i, s), SeenBy(codec, r, j, s));
  }

  /** In every run, reconciles with the given clusters and assignments and equal hash inputs have read the same. */
  ghost predicate SufficientFor(codec: Codec, proxy: Key, clusters: seq<Item>, assignments: seq<Item>,
                                texts: iset<string>) {
    forall a, b :: ReconciledTwice(codec, proxy, a, b)
                   && a.clusters == clusters && a.assignments == assignments
                   && Identified(a, b) && ReadsOver(a, texts) && ReadsOver(b, texts) && Input(a) == Input(b)
                   ==> a == b
  }

  /** The reads of the given clusters and assignments, and of nothing else. */
  function Bare(codec: Codec, clusters: seq<Item>, assignments: seq<Item>): Reads {
    Reads([], clusters, [], [], assignments, seq(|Synthesising(codec, clusters, assignments)|, _ => []))
  }

  /** A slice of the Service, with the given version. */
  function SliceFor(service: Key, version: string): Slice {
    Slice("s", service.namespace, version, map[SERVICE_LABEL := service.name], [], [])
  }

  /**
   * With uniquely decodable versions, one of them still unused: over all runs, the hash input of a
   * proxy with the given clusters determines what was read if and only if no two of those with a
   * synthesised assignment share a Service.
   */
  lemma {:induction false} SufficientIffUnshared(codec: Codec, proxy: Key, clusters: seq<Item>, assignments: seq<Item>,
                                                 texts: iset<string>, unused: string)
    requires DotFree(proxy.namespace) && UniquelyDecodable(texts) && unused in texts
    requires var r := Bare(codec, clusters, assignments);
             && Listed(codec, proxy, r) && Identified(r, r) && ReadsOver(r, texts)
             && forall o <- Trace(r) :: VersionOf(o) != unused
    ensures SufficientFor(codec, proxy, clusters, assignments, texts)
            <==> Unshared(codec, Bare(codec, clusters, assignments))
  {
    var r := Bare(codec, clusters, assignments);
    if Unshared(codec, r) {
      forall a, b | ReconciledTwice(codec, proxy, a, b)
                    && a.clusters == clusters && a.assignments == assignments
                    && Identified(a, b) && ReadsOver(a, texts) && ReadsOver(b, texts) && Input(a) == Input(b)
        ensures a == b
      {
        TwiceListed(codec, proxy, a, b);
        ListedIsGathered(codec, proxy, a);
        ListedIsGathered(codec, proxy, b);
        DecodableIsSufficient(codec, a, b, texts);
      }
    } else {
      var i, j :| 0 <= i < j < |ServicesRead(codec, r)| && ServicesRead(codec, r)[i] == ServicesRead(codec, r)[j];
      UnusedCollides(codec, proxy, r, i, j, texts, unused);
    }
  }

  lemma {:induction false} BareTrace(codec: Codec, r: Reads)
    requires forall l <- r.slices :: l == []
    ensures Trace(r) == Trace(r.(slices := []))
    decreases |r.slices|
  {
    NothingFlat(r.slices);
  }

  lemma {:induction false} NothingFlat(lists: seq<seq<Slice>>)
    requires forall l <- lists :: l == []
    ensures FlatSlices(lists) == []
  {
    if lists != [] {
      var n := |lists| - 1;
      assert forall i | 0 <= i <= n :: lists[i] in lists;
      NothingFlat(lists[..n]);
    }
  }

  lemma {:induction false} UnusedCollides(codec: Codec, proxy: Key, r: Reads, i: nat, j: nat, texts: iset<string>,
                                          unused: string)
    requires DotFree(proxy.namespace)
    requires r == Bare(codec, r.clusters, r.assignments) && Listed(codec, proxy, r) && Identified(r, r)
    requires ReadsOver(r, texts) && unused in texts && forall o <- Trace(r) :: VersionOf(o) != unused
    requires i < j < |ServicesRead(codec, r)| && ServicesRead(codec, r)[i] == ServicesRead(codec, r)[j]
    ensures !SufficientFor(codec, proxy, r.clusters, r.assignments, texts)
  {
    var s := SliceFor(ServicesRead(codec, r)[i], unused);
    var a, b := SeenBy(codec, r, i, s), SeenBy(codec, r, j, s);
    BareTrace(codec, r);
    SharedServiceRun(codec, proxy, r, i, j, s);
    SeenByTrace(codec, r, i, s);
    SeenByTrace(codec, r, j, s);
    assert ReadsOver(a, texts) && ReadsOver(b, texts);
  }

  /** A cluster of the Service `svc`, for the proxy `p` in namespace `n`. */
  function ClusterOf(name: string, version: string, spec: string): Item {
    Item(name, "n", version, TargetRef("p", ""), Some(ServiceRef("svc", "", Some(80))), spec)
  }

  const ONE_ADDRESS := Slice("s", "n", "3", map[SERVICE_LABEL := "svc"], [Some(80)], [Endpoint(None, ["10.0.0.1"])])

  function TwoClusters(spec: string): Reads {
    Reads([], [ClusterOf("x", "1", spec), ClusterOf("y", "2", spec)], [], [], [], [[], []])
  }

  lemma TwoServices(codec: Codec, spec: string)
    requires ClusterName(codec, spec) != ""
    ensures ServicesRead(codec, TwoClusters(spec)) == [Key("svc", "n"), Key("svc", "n")]
    ensures Synthesising(codec, TwoClusters(spec).clusters, []) == TwoClusters(spec).clusters
  {
    var x, y := ClusterOf("x", "1", spec), ClusterOf("y", "2", spec);
    var names := ManualNames(Lookup(codec), []);
    assert [x, y][..1] == [x] && [x][..0] == [];
    assert SynthesisedClusters(codec, [x], names) == [x];
    assert Synthesising(codec, [x, y], []) == [x, y];
    assert ServicesOf([x, y]) == [ServiceOf(x), ServiceOf(y)];
  }

  lemma TwoClustersTrace(spec: string)
    ensures Trace(TwoClusters(spec).(slices := []))
            == [ClusterObject(ClusterOf("x", "1", spec)), ClusterObject(ClusterOf("y", "2", spec))]
  {
    var r := TwoClusters(spec).(slices := []);
    assert Tag([], LISTENER) == [] && Tag([], ROUTE) == [] && Tag([], SCOPED_ROUTE) == [] && Tag([], ASSIGNMENT) == [];
    assert FromAssignments(r) == [] && FromScopedRoutes(r) == [] && FromRoutes(r) == [];
  }

  /**
   * Concretely, with versions of width one: two clusters of one Service, a slice with one address that
   * one reconcile sees for the first cluster and another for the second. The endpoints change, the
   * hash input does not.
   */
  lemma {:induction false} SharedServiceInstance(codec: Codec, spec: string)
    requires ClusterName(codec, spec) != ""
    ensures var r, s := TwoClusters(spec), ONE_ADDRESS;
            var a, b := SeenBy(codec, r, 0, s), SeenBy(codec, r, 1, s);
            && ReconciledTwice(codec, PROXY, a, b) && Identified(a, b) && FixedWidth(TextsIn(a, b), 1)
            && Input(a) == Input(b) && Complete(codec, a) && Complete(codec, b) && |a.slices| == |b.slices| == 2
            && AssignmentFor(codec, a, 0) != AssignmentFor(codec, b, 0)
  {
    var r, s := TwoClusters(spec), ONE_ADDRESS;
    TwoServices(codec, spec);
    TwoClustersListed(codec, spec);
    SharedServiceRun(codec, PROXY, r, 0, 1, s);
    SharedServiceCollides(codec, PROXY, r, 0, 1, s);
    WidthOne(codec, spec);
    OneEndpoint();
    FirstAssignment(codec, spec, SeenBy(codec, r, 0, s));
    FirstAssignment(codec, spec, SeenBy(codec, r, 1, s));
  }

  lemma TwoClustersListed(codec: Codec, spec: string)
    requires ClusterName(codec, spec) != ""
    ensures Listed(codec, PROXY, TwoClusters(spec)) && FreshFor(ONE_ADDRESS, TwoClusters(spec))
    ensures BelongsTo(ONE_ADDRESS, Key("svc", "n"))
  {
    TwoServices(codec, spec);
    TwoNamed(spec);
    TwoFresh(spec);
  }

  lemma TwoNamed(spec: string)
    ensures ListedFor(TwoClusters(spec).clusters, PROXY)
  {
    assert "x"[0] != "y"[0];
  }

  lemma TwoFresh(spec: string)
    ensures FreshFor(ONE_ADDRESS, TwoClusters(spec))
  {
    var x, y := ClusterObject(ClusterOf("x", "1", spec)), ClusterObject(ClusterOf("y", "2", spec));
    TwoClustersTrace(spec);
    assert "1"[0] != "2"[0] && "1"[0] != "3"[0] && "2"[0] != "3"[0];
    assert VersionOf(x) == "1" && VersionOf(y) == "2";
    assert forall o :: o in [x, y] ==> o == x || o == y;
  }

  lemma WidthOne(codec: Codec, spec: string)
    requires ClusterName(codec, spec) != ""
    ensures var r, s := TwoClusters(spec), ONE_ADDRESS;
            FixedWidth(TextsIn(SeenBy(codec, r, 0, s), SeenBy(codec, r, 1, s)), 1)
  {
    TwoServices(codec, spec);
    TwoClustersTrace(spec);
    SeenByTrace(codec, TwoClusters(spec), 0, ONE_ADDRESS);
    SeenByTrace(codec, TwoClusters(spec), 1, ONE_ADDRESS);
    assert |"1"| == 1 && |"2"| == 1 && |"3"| == 1;
  }

  lemma FirstAssignment(codec: Codec, spec: string, r: Reads)
    requires ClusterName(codec, spec) != "" && r == TwoClusters(spec).(slices := r.slices) && |r.slices| == 2
    ensures Complete(codec, r)
    ensures AssignmentFor(codec, r, 0) == Synthesized(ClusterName(codec, spec), r.slices[0], Some(80))
  {
    TwoServices(codec, spec);
  }

  lemma OneEndpoint()
    ensures FromSlices([ONE_ADDRESS], Some(80)) != []
  {
    var s := ONE_ADDRESS;
    WantedPort(s.ports, 80);
    assert [s][..0] == [] && s.endpoints[..0] == [] && s.endpoints[0].addresses[..0] == [];
    assert s.endpoints[0].addresses[0] == "10.0.0.1" && |"10.0.0.1"| == 8;
    assert FromAddresses(s.endpoints[0].addresses, 80) == [LbEndpoint("10.0.0.1", 80, 1)];
    assert FromEndpoints(s.endpoints, 80) == [LbEndpoint("10.0.0.1", 80, 1)];
  }

  // ----- Versions of cached snapshots -----

  /** Different texts have different digests. */
  ghost predicate InjectiveDigest(codec: Codec) {
    forall s, t :: codec.digest(s) == codec.digest(t) ==> s == t
  }

  /** Two sets of reads to which the theorems on versions apply. */
  ghost predicate Comparable(codec: Codec, a: Reads, b: Reads, texts: iset<string>) {
    Identified(a, b) && ReadsOver(a, texts) && ReadsOver(b, texts) && UniquelyDecodable(texts) && InjectiveDigest(codec)
  }

  lemma {:induction false} CachedVersion(codec: Codec, start: State, steps: seq<Step>, st: State, k: Key)
    requires Initial(start) && NamedRun(codec, start, steps, st) && DotFree(k.namespace) && NodeId(k) in st.cache
    ensures NodeId(k) in st.written && Listed(codec, k, st.written[NodeId(k)])
    ensures OutcomeOf(codec, st.written[NodeId(k)]) == Good(st.cache[NodeId(k)])
    ensures st.cache[NodeId(k)].version == codec.digest(Input(st.written[NodeId(k)]))
  {
    RunGathers(codec, start, steps, st);
    GoodVersion(codec, st.written[NodeId(k)]);
  }

  /**
   * After any two runs, snapshots cached for a proxy with the same version are the same, if the
   * clusters of one of them share no Service.
   */
  lemma {:induction false} UnsharedVersionUnique(codec: Codec, s: State, xs: seq<Step>, st: State,
                                                 t: State, ys: seq<Step>, other: State, k: Key, texts: iset<string>)
    requires Initial(s) && NamedRun(codec, s, xs, st) && Initial(t) && NamedRun(codec, t, ys, other)
    requires DotFree(k.namespace) && NodeId(k) in st.cache && NodeId(k) in other.cache
    requires NodeId(k) in st.written && NodeId(k) in other.written
    requires Comparable(codec, st.written[NodeId(k)], other.written[NodeId(k)], texts)
    requires Unshared(codec, st.written[NodeId(k)])
    requires st.cache[NodeId(k)].version == other.cache[NodeId(k)].version
    ensures st.cache[NodeId(k)] == other.cache[NodeId(k)]
  {
    CachedVersion(codec, s, xs, st, k);
    CachedVersion(codec, t, ys, other, k);
    var a, b := st.written[NodeId(k)], other.written[NodeId(k)];
    ListedIsGathered(codec, k, a);
    ListedIsGathered(codec, k, b);
    DecodableIsSufficient(codec, a, b, texts);
  }

  /**
   * The version of a coherent snapshot belongs to no other one, shared Services or not: after any
   * two runs, a snapshot cached with the version of a coherent one is that snapshot.
   */
  lemma {:induction false} CoherentVersionUnique(codec: Codec, s: State, xs: seq<Step>, st: State,
                                                 t: State, ys: seq<Step>, other: State, k: Key, texts: iset<string>)
    requires Initial(s) && NamedRun(codec, s, xs, st) && Initial(t) && NamedRun(codec, t, ys, other)
    requires DotFree(k.namespace) && Coherent(codec, st, k) && NodeId(k) in other.cache && NodeId(k) in other.written
    requires Comparable(codec, ReadAll(codec, st.world, k), other.written[NodeId(k)], texts)
    requires st.cache[NodeId(k)].version == other.cache[NodeId(k)].version
    ensures st.cache[NodeId(k)] == other.cache[NodeId(k)]
  {
    CachedVersion(codec, t, ys, other, k);
    EndNamed(codec, s, xs, st);
    var a, b := ReadAll(codec, st.world, k), other.written[NodeId(k)];
    ReadAllListed(codec, st.world, k);
    GoodVersion(codec, a);
    ListedIsGathered(codec, k, a);
    ListedIsGathered(codec, k, b);
    assert Atomic(codec, a);
    DecodableIsSufficient(codec, a, b, texts);
  }
}
