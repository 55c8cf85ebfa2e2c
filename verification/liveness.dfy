/** What the reconciler reaches once objects stop changing. */
module Liveness {
  import opened Mesh
  import opened Snapshots
  import opened Collect
  import opened Coherence
  import opened Settle
  import opened Sets

  /** A step of the control plane itself. */
  predicate Internal(step: Step) {
    step.Deliver? || step.Begin? || step.Read? || step.Commit?
  }

  /** The events of status writes that a step causes. */
  function Emitted(step: Step): nat {
    if step.Commit? then step.statusEvents else 0
  }

  /** The proxy exists and its configuration does not build. */
  ghost predicate Bad(codec: Codec, w: World, k: Key) {
    k in w.proxies && !FromScratch(codec, w, k).Good?
  }

  /** A step of the control plane that does not begin the retry of a proxy that cannot succeed. */
  ghost predicate Useful(codec: Codec, st: State, step: Step) {
    Internal(step) && !(step.Begin? && Bad(codec, st.world, step.key))
  }

  /** No event and no reconcile is left, and no request but those of proxies that do not build. */
  ghost predicate Quiet(codec: Codec, st: State) {
    st.inflight == [] && st.active == map[] && forall k | k in st.queue :: Bad(codec, st.world, k)
  }

  // ----- A measure that every internal step lowers -----

  /** List calls that a reconcile may still make, for at most one slice list per cluster. */
  ghost function Remaining(codec: Codec, w: World, k: Key, p: Progress): int {
    if p.stage >= 5 then |Needed(codec, p)| - |p.got.slices|
    else 5 - p.stage + |if p.stage >= 2 then p.got.clusters else Matching(w.clusters, k)|
  }

  lemma {:induction false} NeededAtMostClusters(codec: Codec, clusters: seq<Item>, manual: set<string>)
    ensures |SynthesisedClusters(codec, clusters, manual)| <= |clusters|
  {
    if clusters != [] {
      NeededAtMostClusters(codec, clusters[..|clusters| - 1], manual);
    }
  }

  lemma {:induction false} ReadLowers(codec: Codec, w: World, k: Key, p: Progress)
    requires WellFormed(codec, p) && CanRead(codec, p)
    ensures 0 <= Remaining(codec, w, k, ReadOne(codec, w, k, p)) < Remaining(codec, w, k, p)
  {
    var q := ReadOne(codec, w, k, p);
    if p.stage == 4 {
      NeededAtMostClusters(codec, q.got.clusters, ManualNames(Lookup(codec), q.got.assignments));
    } else if p.stage == 5 {
      assert Needed(codec, q) == Needed(codec, p);
    }
  }

  /** Reconciles that may end with an error: the proxy is gone, or a read is out of date. */
  ghost function Doomed(codec: Codec, st: State): set<Key> {
    set k | k in st.active && !(k in st.world.proxies && UpToDate(codec, st.world, k, st.active[k]))
  }

  /** One token for the end of each reconcile under way and for each List call it may still make. */
  ghost function Tokens(codec: Codec, st: State): set<(Key, int)> {
    set k, i | k in st.active && 0 <= i <= Remaining(codec, st.world, k, st.active[k]) :: (k, i)
  }

  /** The requests of proxies that are gone or build. */
  ghost function Waiting(codec: Codec, st: State): set<Key> {
    set k | k in st.queue && !Bad(codec, st.world, k)
  }

  /** Such requests, and twice the reconciles that may end with one of their own. */
  ghost function Owed(codec: Codec, st: State): nat {
    |Waiting(codec, st)| + 2 * |Doomed(codec, st)|
  }

  ghost predicate Below(codec: Codec, a: State, b: State) {
    || |a.inflight| < |b.inflight|
    || (|a.inflight| == |b.inflight| && Owed(codec, a) < Owed(codec, b))
    || (|a.inflight| == |b.inflight| && Owed(codec, a) == Owed(codec, b) && Tokens(codec, a) < Tokens(codec, b))
  }

  lemma {:induction false} BeginDescends(codec: Codec, st: State, key: Key)
    requires Enabled(codec, st, Begin(key)) && !Bad(codec, st.world, key)
    ensures Below(codec, Next(codec, st, Begin(key)), st)
  {
    var st' := Next(codec, st, Begin(key));
    assert Doomed(codec, st') == Doomed(codec, st);
    assert Waiting(codec, st') == Waiting(codec, st) - {key};
  }

  lemma {:induction false} ReadDescends(codec: Codec, st: State, key: Key)
    requires Inv(codec, st) && Enabled(codec, st, Read(key))
    ensures Below(codec, Next(codec, st, Read(key)), st)
  {
    var st' := Next(codec, st, Read(key));
    assert ActiveOk(codec, st, key);
    ReadKeepsUpToDate(codec, st.world, key, st.active[key]);
    ReadLowers(codec, st.world, key, st.active[key]);
    assert Waiting(codec, st') == Waiting(codec, st);
    assert Doomed(codec, st') <= Doomed(codec, st);
    SubsetSize(Doomed(codec, st'), Doomed(codec, st));
    var token := (key, Remaining(codec, st.world, key, st.active[key]));
    assert token in Tokens(codec, st) && token !in Tokens(codec, st');
    assert Tokens(codec, st') <= Tokens(codec, st);
  }

  lemma {:induction false} CommitSets(codec: Codec, st: State, key: Key, n: nat)
    requires Enabled(codec, st, Commit(key, n))
    ensures var st' := Committed(codec, st, key, n);
            && st'.world == st.world && st'.queue <= st.queue + {key} && |st'.inflight| == |st.inflight| + n
            && Doomed(codec, st') == Doomed(codec, st) - {key}
            && Waiting(codec, st') <= Waiting(codec, st) + {key}
            && (key !in Doomed(codec, st) ==> Waiting(codec, st') == Waiting(codec, st))
  {
    var st' := Committed(codec, st, key, n);
    if key !in Doomed(codec, st) {
      FinishedIsReadAll(codec, st.world, key, st.active[key]);
    }
  }

  lemma {:induction false} CommitSpendsToken(codec: Codec, st: State, key: Key, n: nat)
    requires Enabled(codec, st, Commit(key, n))
    ensures Tokens(codec, Committed(codec, st, key, n)) < Tokens(codec, st)
  {
    var st' := Committed(codec, st, key, n);
    assert (key, 0) in Tokens(codec, st) && (key, 0) !in Tokens(codec, st');
    assert Tokens(codec, st') <= Tokens(codec, st);
  }

  lemma {:induction false} CommitDescends(codec: Codec, st: State, key: Key)
    requires Enabled(codec, st, Commit(key, 0))
    ensures Below(codec, Next(codec, st, Commit(key, 0)), st)
  {
    CommitSets(codec, st, key, 0);
    CommitSpendsToken(codec, st, key, 0);
    SubsetSize(Waiting(codec, Committed(codec, st, key, 0)), Waiting(codec, st) + {key});
  }

  /** Lexicographic, with the status events that may still be caused first. */
  ghost predicate Lower(codec: Codec, a: State, left: nat, b: State, budget: nat) {
    left < budget || (left == budget && Below(codec, a, b))
  }

  /** Each useful step lowers the measure, if the budget covers the status events that it causes. */
  lemma {:induction false} UsefulStepDescends(codec: Codec, st: State, step: Step, budget: nat)
    requires Inv(codec, st) && Useful(codec, st, step) && Enabled(codec, st, step) && Emitted(step) <= budget
    ensures Lower(codec, Next(codec, st, step), budget - Emitted(step), st, budget)
    ensures Next(codec, st, step).world == st.world && Next(codec, st, step).missed <= st.missed
  {
    match step
    case Deliver(i) =>
    case Begin(k) => BeginDescends(codec, st, k);
    case Read(k) => ReadDescends(codec, st, k);
    case Commit(k, n) =>
      if n == 0 {
        CommitDescends(codec, st, k);
      }
  }

  // ----- Status objects, and why their events stop -----

  /** What status updates depend on besides outcomes, while nothing changes from outside. */
  datatype Frozen = Frozen(generation: Key -> int, connected: Key -> bool, explain: Outcome -> string)

  /** The machine together with the status of each proxy. */
  datatype Full = Full(st: State, status: map<Key, Status>)

  function StatusOf(f: Full, k: Key): Status {
    if k in f.status then f.status[k] else Status([], 0)
  }

  function InputsFor(codec: Codec, w: World, fr: Frozen, k: Key): Inputs {
    Inputs(codec, w, k, fr.generation(k), fr.connected(k), fr.explain)
  }

  /** The status updates of a reconcile with the given outcome: the new status, and the number of events. */
  function Updates(codec: Codec, w: World, fr: Frozen, k: Key, status: Status, out: Outcome, now: int,
                   later: int): Effects {
    Concluded(Effects(map[], status, 0), InputsFor(codec, w, fr, k), out, now, later)
  }

  /** A commit updates the status of its proxy at some time, and causes the events of these updates. */
  ghost predicate StatusUpdated(codec: Codec, fr: Frozen, f: Full, step: Step, f': Full)
    requires Enabled(codec, f.st, step)
  {
    if step.Commit? then
      var out := OutcomeOf(codec, f.st.active[step.key].got);
      exists now, later ::
        var e := Updates(codec, f.st.world, fr, step.key, StatusOf(f, step.key), out, now, later);
        step.statusEvents == e.writes && f'.status == f.status[step.key := e.status]
    else f'.status == f.status
  }

  ghost predicate UsefulStep(codec: Codec, fr: Frozen, f: Full, step: Step, f': Full) {
    && Useful(codec, f.st, step) && Enabled(codec, f.st, step) && f'.st == Next(codec, f.st, step)
    && StatusUpdated(codec, fr, f, step, f')
  }

  /** A reconcile with the outcome would change nothing in the status, whenever it happens. */
  ghost predicate Fixed(codec: Codec, w: World, fr: Frozen, k: Key, status: Status, out: Outcome) {
    forall now, later :: Updates(codec, w, fr, k, status, out, now, later).writes == 0
  }

  /** The proxies whose status is not what the build of the current world would leave. */
  ghost function Unsettled(codec: Codec, fr: Frozen, f: Full): set<Key> {
    var w := f.st.world;
    set k | k in w.proxies && !Fixed(codec, w, fr, k, StatusOf(f, k), FromScratch(codec, w, k))
  }

  /** How many status events can still be caused: two per unsettled proxy, four per reconcile that may be outdated. */
  ghost function Budget(codec: Codec, fr: Frozen, f: Full): nat {
    4 * |Doomed(codec, f.st)| + 2 * |Unsettled(codec, fr, f)|
  }

  lemma AtMostTwo(codec: Codec, w: World, fr: Frozen, k: Key, status: Status, out: Outcome, now: int, later: int)
    ensures Updates(codec, w, fr, k, status, out, now, later).writes <= 2
  {
  }

  lemma FixedAfter(codec: Codec, w: World, fr: Frozen, k: Key, status: Status, out: Outcome, t: int, u: int)
    ensures Fixed(codec, w, fr, k, Updates(codec, w, fr, k, status, out, t, u).status, out)
  {
    var inp, once := InputsFor(codec, w, fr, k), Updates(codec, w, fr, k, status, out, t, u);
    forall now, later ensures Updates(codec, w, fr, k, once.status, out, now, later).writes == 0 {
      ConcludingIsIdempotent(Effects(map[], status, 0), inp, out, t, u, now, later);
      WritesOnlyCount(once, Effects(map[], once.status, 0), inp, out, now, later);
    }
  }

  /** What a status update does depends on the status only, and the counter only counts. */
  lemma WritesOnlyCount(a: Effects, b: Effects, inp: Inputs, out: Outcome, now: int, later: int)
    requires a.status == b.status
    ensures var x, y := Concluded(a, inp, out, now, later), Concluded(b, inp, out, now, later);
            x.status == y.status && x.writes - a.writes == y.writes - b.writes
  {
  }

  /** What the budget loses covers the events of the step. */
  lemma {:induction false} BudgetCovers(codec: Codec, fr: Frozen, f: Full, step: Step, f': Full)
    requires Inv(codec, f.st) && UsefulStep(codec, fr, f, step, f')
    ensures Budget(codec, fr, f') + Emitted(step) <= Budget(codec, fr, f)
  {
    if step.Commit? {
      CommitCovered(codec, fr, f, step.key, step.statusEvents, f');
    } else {
      assert f'.st.world == f.st.world && Unsettled(codec, fr, f') == Unsettled(codec, fr, f);
      DoomedShrinks(codec, f.st, step);
    }
  }

  lemma {:induction false} DoomedShrinks(codec: Codec, st: State, step: Step)
    requires Inv(codec, st) && Internal(step) && !step.Commit? && Enabled(codec, st, step)
    ensures |Doomed(codec, Next(codec, st, step))| <= |Doomed(codec, st)|
  {
    var st' := Next(codec, st, step);
    if step.Read? {
      assert ActiveOk(codec, st, step.key);
      ReadKeepsUpToDate(codec, st.world, step.key, st.active[step.key]);
    }
    assert Doomed(codec, st') <= Doomed(codec, st);
    SubsetSize(Doomed(codec, st'), Doomed(codec, st));
  }

  lemma {:induction false} CommitCovered(codec: Codec, fr: Frozen, f: Full, key: Key, n: nat, f': Full)
    requires UsefulStep(codec, fr, f, Commit(key, n), f')
    ensures Budget(codec, fr, f') + n <= Budget(codec, fr, f)
  {
    CommitShrinks(codec, fr, f, key, n, f');
    SetsCover(Doomed(codec, f.st), Doomed(codec, f'.st), Unsettled(codec, fr, f), Unsettled(codec, fr, f'), key, n);
  }

  lemma {:induction false} CommitShrinks(codec: Codec, fr: Frozen, f: Full, key: Key, n: nat, f': Full)
    requires UsefulStep(codec, fr, f, Commit(key, n), f')
    ensures Doomed(codec, f'.st) == Doomed(codec, f.st) - {key}
    ensures n <= 2 && Unsettled(codec, fr, f') <= Unsettled(codec, fr, f) + {key}
    ensures key !in Doomed(codec, f.st) ==> Unsettled(codec, fr, f') == Unsettled(codec, fr, f) - {key}
    ensures key !in Doomed(codec, f.st) && key !in Unsettled(codec, fr, f) ==> n == 0
  {
    assert f'.st == Committed(codec, f.st, key, n);
    CommitSets(codec, f.st, key, n);
    StatusSettles(codec, fr, f, key, n, f');
  }

  /** The arithmetic of a commit: one reconcile less that may be outdated, or one proxy less that is not settled. */
  lemma SetsCover(doomed: set<Key>, doomed': set<Key>, open: set<Key>, open': set<Key>, key: Key, n: nat)
    requires doomed' == doomed - {key} && open' <= open + {key} && n <= 2
    requires key !in doomed ==> open' == open - {key} && (key !in open ==> n == 0)
    ensures 4 * |doomed'| + 2 * |open'| + n <= 4 * |doomed| + 2 * |open|
  {
    SubsetSize(open', open + {key});
  }

  /** A commit causes at most two events, and none if the status was settled; an up-to-date one settles it. */
  lemma {:induction false} StatusSettles(codec: Codec, fr: Frozen, f: Full, key: Key, n: nat, f': Full)
    requires UsefulStep(codec, fr, f, Commit(key, n), f') && f'.st.world == f.st.world
    ensures n <= 2 && Unsettled(codec, fr, f') <= Unsettled(codec, fr, f) + {key}
    ensures key !in Doomed(codec, f.st) ==> Unsettled(codec, fr, f') == Unsettled(codec, fr, f) - {key}
    ensures key !in Doomed(codec, f.st) && key !in Unsettled(codec, fr, f) ==> n == 0
  {
    CommitUpdates(codec, fr, f, key, n, f');
    OnlyKeyUnsettled(codec, fr, f, key, f');
    if key !in Doomed(codec, f.st) {
      FinishedIsReadAll(codec, f.st.world, key, f.st.active[key]);
      assert OutcomeOf(codec, f.st.active[key].got) == FromScratch(codec, f.st.world, key);
      assert key !in Unsettled(codec, fr, f');
    }
  }

  /** If only the status of one proxy changes, only that proxy can be settled or unsettled by it. */
  lemma {:induction false} OnlyKeyUnsettled(codec: Codec, fr: Frozen, f: Full, key: Key, f': Full)
    requires f'.st.world == f.st.world && forall k | k != key :: StatusOf(f', k) == StatusOf(f, k)
    ensures Unsettled(codec, fr, f') - {key} == Unsettled(codec, fr, f) - {key}
  {
    forall k | k != key ensures k in Unsettled(codec, fr, f') <==> k in Unsettled(codec, fr, f) {
      assert StatusOf(f', k) == StatusOf(f, k);
    }
  }

  lemma {:induction false} CommitUpdates(codec: Codec, fr: Frozen, f: Full, key: Key, n: nat, f': Full)
    requires UsefulStep(codec, fr, f, Commit(key, n), f')
    ensures n <= 2 && forall k | k != key :: StatusOf(f', k) == StatusOf(f, k)
    ensures var w, out := f.st.world, OutcomeOf(codec, f.st.active[key].got);
            && Fixed(codec, w, fr, key, StatusOf(f', key), out)
            && (Fixed(codec, w, fr, key, StatusOf(f, key), out) ==> n == 0)
  {
    var w, out := f.st.world, OutcomeOf(codec, f.st.active[key].got);
    var now, later :|
      var e := Updates(codec, w, fr, key, StatusOf(f, key), out, now, later);
      n == e.writes && f'.status == f.status[key := e.status];
    AtMostTwo(codec, w, fr, key, StatusOf(f, key), out, now, later);
    FixedAfter(codec, w, fr, key, StatusOf(f, key), out, now, later);
  }

  /**
   * Status events stop by themselves: while objects stay as they are, every step of the control plane
   * but the retry of a proxy that does not build lowers a well-founded measure, whatever the order.
   */
  lemma {:induction false} InternalStepDescends(codec: Codec, fr: Frozen, f: Full, step: Step, f': Full)
    requires Inv(codec, f.st) && UsefulStep(codec, fr, f, step, f')
    ensures Lower(codec, f'.st, Budget(codec, fr, f'), f.st, Budget(codec, fr, f))
    ensures f'.st.world == f.st.world && f'.st.missed <= f.st.missed
  {
    BudgetCovers(codec, fr, f, step, f');
    UsefulStepDescends(codec, f.st, step, Budget(codec, fr, f));
  }

  /** The sequence without its first element. */
  function Tail<T>(f: nat -> T): nat -> T {
    (i: nat) => f(i + 1)
  }

  ghost predicate UsefulAt(codec: Codec, fr: Frozen, f: nat -> Full, step: nat -> Step, i: nat) {
    UsefulStep(codec, fr, f(i), step(i), f(i + 1))
  }

  ghost predicate StopsSomewhere(codec: Codec, fr: Frozen, f: nat -> Full, step: nat -> Step) {
    exists i: nat :: !UsefulAt(codec, fr, f, step, i)
  }

  lemma TailStops(codec: Codec, fr: Frozen, f: nat -> Full, step: nat -> Step)
    requires StopsSomewhere(codec, fr, Tail(f), Tail(step))
    ensures StopsSomewhere(codec, fr, f, step)
  {
    var i: nat :| !UsefulAt(codec, fr, Tail(f), Tail(step), i);
    SameAt(codec, fr, f, step, i);
  }

  lemma SameAt(codec: Codec, fr: Frozen, f: nat -> Full, step: nat -> Step, i: nat)
    ensures UsefulAt(codec, fr, Tail(f), Tail(step), i) == UsefulAt(codec, fr, f, step, i + 1)
  {
    assert Tail(f)(i) == f(i + 1) && Tail(step)(i) == step(i + 1) && Tail(f)(i + 1) == f(i + 1 + 1);
  }

  lemma {:induction false} FirstStep(codec: Codec, fr: Frozen, f: nat -> Full, step: nat -> Step)
    requires Inv(codec, f(0).st) && UsefulAt(codec, fr, f, step, 0)
    ensures var g := Tail(f)(0);
            Inv(codec, g.st) && Lower(codec, g.st, Budget(codec, fr, g), f(0).st, Budget(codec, fr, f(0)))
  {
    var here, next := f(0), f(0 + 1);
    assert Tail(f)(0) == next;
    InternalStepDescends(codec, fr, here, step(0), next);
    StepKeeps(codec, here.st, step(0));
  }

  /** No endless run: of any infinite sequence of states and steps, some step is no such step. */
  lemma {:induction false} EveryRunEnds(codec: Codec, fr: Frozen, f: nat -> Full, step: nat -> Step)
    requires Inv(codec, f(0).st)
    ensures StopsSomewhere(codec, fr, f, step)
    decreases Budget(codec, fr, f(0)), |f(0).st.inflight|, Owed(codec, f(0).st), Tokens(codec, f(0).st)
  {
    if UsefulAt(codec, fr, f, step, 0) {
      FirstStep(codec, fr, f, step);
      EveryRunEnds(codec, fr, Tail(f), Tail(step));
      TailStops(codec, fr, f, step);
    }
  }

  // ----- It ends where every proxy that builds is coherent -----

  /** A state that is not quiet has a useful step. */
  lemma {:induction false} NextUsefulStep(codec: Codec, fr: Frozen, f: Full) returns (step: Step, f': Full)
    requires Inv(codec, f.st) && !Quiet(codec, f.st)
    ensures UsefulStep(codec, fr, f, step, f')
  {
    var st := f.st;
    if st.inflight != [] {
      step := Deliver(0);
      f' := Full(Next(codec, st, step), f.status);
    } else if st.active != map[] {
      var k :| k in st.active;
      assert ActiveOk(codec, st, k);
      if CanRead(codec, st.active[k]) {
        step := Read(k);
        f' := Full(Next(codec, st, step), f.status);
      } else {
        var e := Updates(codec, st.world, fr, k, StatusOf(f, k), OutcomeOf(codec, st.active[k].got), 0, 0);
        step := Commit(k, e.writes);
        f' := Full(Next(codec, st, step), f.status[k := e.status]);
      }
    } else {
      var k :| k in st.queue && !Bad(codec, st.world, k);
      step := Begin(k);
      f' := Full(Next(codec, st, step), f.status);
    }
  }

  /** Where no useful step is left, every proxy that builds is coherent, unless its request was dropped. */
  lemma {:induction false} StuckIsCoherent(codec: Codec, fr: Frozen, f: Full, k: Key)
    requires Inv(codec, f.st) && (forall step, f' :: !UsefulStep(codec, fr, f, step, f'))
    requires k in f.st.world.proxies && FromScratch(codec, f.st.world, k).Good? && k !in f.st.missed
    ensures Quiet(codec, f.st) && Coherent(codec, f.st, k)
  {
    if !Quiet(codec, f.st) {
      var step, f' := NextUsefulStep(codec, fr, f);
    }
    assert ProxyOk(codec, f.st, k);
  }

  ghost predicate UsefulRun(codec: Codec, fr: Frozen, f: Full, steps: seq<Step>, end: Full)
    decreases |steps|
  {
    if steps == [] then f == end
    else exists mid :: UsefulStep(codec, fr, f, steps[0], mid) && UsefulRun(codec, fr, mid, steps[1..], end)
  }

  /** The steps that lead from a state to quiescence. */
  lemma {:induction false} Settles(codec: Codec, fr: Frozen, f: Full) returns (steps: seq<Step>, end: Full)
    requires Inv(codec, f.st)
    ensures UsefulRun(codec, fr, f, steps, end) && Quiet(codec, end.st) && Inv(codec, end.st)
    ensures end.st.world == f.st.world && end.st.missed <= f.st.missed
    decreases Budget(codec, fr, f), |f.st.inflight|, Owed(codec, f.st), Tokens(codec, f.st)
  {
    if Quiet(codec, f.st) {
      steps, end := [], f;
    } else {
      var step, mid := NextUsefulStep(codec, fr, f);
      InternalStepDescends(codec, fr, f, step, mid);
      StepKeeps(codec, f.st, step);
      var rest;
      rest, end := Settles(codec, fr, mid);
      steps := [step] + rest;
      assert steps[0] == step && steps[1..] == rest;
    }
  }

  ghost predicate LeadsToCoherence(codec: Codec, fr: Frozen, f: Full, steps: seq<Step>, end: Full) {
    && UsefulRun(codec, fr, f, steps, end) && Quiet(codec, end.st) && end.st.world == f.st.world
    && forall k | k in f.st.world.proxies && FromScratch(codec, f.st.world, k).Good? && k !in f.st.missed ::
         Coherent(codec, end.st, k)
  }

  /**
   * From every reachable state, if the world stays as it is, steps of the control plane lead to a
   * state in which each proxy that builds has the from-scratch build in the cache, and only requests
   * of proxies that do not build are left.
   */
  lemma {:induction false} EventuallyCoherent(codec: Codec, fr: Frozen, start: State, run: seq<Step>, f: Full)
    requires Initial(start) && Runs(codec, start, run, f.st)
    ensures exists steps, end :: LeadsToCoherence(codec, fr, f, steps, end)
  {
    RunKeeps(codec, start, run, f.st);
    var steps, end := Settles(codec, fr, f);
    forall k | k in f.st.world.proxies && FromScratch(codec, f.st.world, k).Good? && k !in f.st.missed
      ensures Coherent(codec, end.st, k)
    {
      assert ProxyOk(codec, end.st, k);
    }
    assert LeadsToCoherence(codec, fr, f, steps, end);
  }
}
