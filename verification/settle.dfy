/** Repeated reconciles of one proxy while nothing else changes. */
module Settle {
  import opened Options
  import opened Mesh
  import opened Snapshots
  import opened Collect
  import Streams

  datatype Condition = Condition(typ: string, status: bool, reason: string, message: string, generation: int,
                                 since: int)

  datatype Status = Status(conditions: seq<Condition>, observedGeneration: int)

  const CONNECTED := "Connected"
  const READY := "Ready"

  /** The first condition of a type. */
  function Find(cs: seq<Condition>, typ: string): (i: Option<nat>)
    ensures i.Some? ==> i.value < |cs| && cs[i.value].typ == typ && forall j | 0 <= j < i.value :: cs[j].typ != typ
    ensures i.None? ==> forall j | 0 <= j < |cs| :: cs[j].typ != typ
  {
    if cs == [] then None
    else if cs[0].typ == typ then Some(0)
    else
      var rest := Find(cs[1..], typ);
      if rest.None? then None else Some(rest.value + 1)
  }

  /** The condition update of the API machinery: the transition time moves only with the status. */
  function WithCondition(cs: seq<Condition>, c: Condition): seq<Condition> {
    match Find(cs, c.typ)
    case None => cs + [c]
    case Some(i) => cs[i := c.(since := if cs[i].status == c.status then cs[i].since else c.since)]
  }

  /** The list has the condition, whatever its transition time. */
  ghost predicate Has(cs: seq<Condition>, c: Condition) {
    var i := Find(cs, c.typ);
    i.Some? && cs[i.value] == c.(since := cs[i.value].since)
  }

  lemma FindUnique(cs: seq<Condition>, typ: string, i: nat)
    requires i < |cs| && cs[i].typ == typ && forall j | 0 <= j < i :: cs[j].typ != typ
    ensures Find(cs, typ) == Some(i)
  {
  }

  lemma SetHas(cs: seq<Condition>, c: Condition)
    ensures Has(WithCondition(cs, c), c)
  {
    var i := Find(cs, c.typ);
    FindUnique(WithCondition(cs, c), c.typ, if i.Some? then i.value else |cs|);
  }

  lemma SetKeeps(cs: seq<Condition>, c: Condition, d: Condition)
    requires Has(cs, d) && c.typ != d.typ
    ensures Has(WithCondition(cs, c), d)
  {
    FindUnique(WithCondition(cs, c), d.typ, Find(cs, d.typ).value);
  }

  lemma HasIsFixed(cs: seq<Condition>, c: Condition)
    requires Has(cs, c)
    ensures WithCondition(cs, c) == cs
  {
  }

  /** The conditions after a sequence of updates. */
  function Updated(cs: seq<Condition>, updates: seq<Condition>): seq<Condition> {
    if updates == [] then cs
    else WithCondition(Updated(cs, updates[..|updates| - 1]), updates[|updates| - 1])
  }

  /** Update `i` brought the type its present status: the one before had another, and all later ones agree. */
  predicate ChangedAt(updates: seq<Condition>, typ: string, i: nat) {
    && i < |updates| && updates[i].typ == typ
    && (forall j | i < j < |updates| && updates[j].typ == typ :: updates[j].status == updates[i].status)
    && (forall j | 0 <= j < i && updates[j].typ == typ && NoneBetween(updates, typ, j, i) ::
        updates[j].status != updates[i].status)
  }

  predicate NoneBetween(updates: seq<Condition>, typ: string, j: int, i: int) {
    0 <= j < i <= |updates| && forall m | j < m < i :: updates[m].typ != typ
  }

  /** Whatever else is updated in between, the transition time is that of the update that brought the present status. */
  lemma {:induction false} TransitionTime(updates: seq<Condition>, typ: string)
    requires exists i | 0 <= i < |updates| :: updates[i].typ == typ
    ensures var cs := Updated([], updates);
            && Find(cs, typ).Some?
            && exists i: nat :: ChangedAt(updates, typ, i) && cs[Find(cs, typ).value].since == updates[i].since
  {
    var i := LastChange(updates, typ);
  }

  /** The position of that update, together with the status it brought. */
  lemma {:induction false} LastChange(updates: seq<Condition>, typ: string) returns (i: nat)
    requires exists j | 0 <= j < |updates| :: updates[j].typ == typ
    ensures ChangedAt(updates, typ, i)
    ensures var cs := Updated([], updates);
            var at := Find(cs, typ);
            at.Some? && cs[at.value].since == updates[i].since && cs[at.value].status == updates[i].status
  {
    var n := |updates| - 1;
    var init, last := updates[..n], updates[n];
    var before := Updated([], init);
    if last.typ != typ {
      i := LastChange(init, typ);
      OtherTypeKept(before, last, typ);
      ChangedAtLonger(updates, typ, i);
    } else {
      var at := Find(before, typ);
      FindUnique(WithCondition(before, last), typ, if at.Some? then at.value else |before|);
      if exists j | 0 <= j < |init| :: init[j].typ == typ {
        i := LastChange(init, typ);
        if updates[i].status == last.status {
          ChangedAtLonger(updates, typ, i);
        } else {
          ChangedNow(updates, typ, i);
          i := n;
        }
      } else {
        NeverSet(init, typ);
        i := n;
      }
    }
  }

  lemma OtherTypeKept(cs: seq<Condition>, c: Condition, typ: string)
    requires c.typ != typ && Find(cs, typ).Some?
    ensures Find(WithCondition(cs, c), typ) == Find(cs, typ)
    ensures WithCondition(cs, c)[Find(cs, typ).value] == cs[Find(cs, typ).value]
  {
    FindUnique(WithCondition(cs, c), typ, Find(cs, typ).value);
  }

  lemma ChangedAtLonger(updates: seq<Condition>, typ: string, i: nat)
    requires updates != [] && ChangedAt(updates[..|updates| - 1], typ, i)
    requires var last := updates[|updates| - 1]; last.typ == typ ==> last.status == updates[i].status
    ensures ChangedAt(updates, typ, i)
  {
    var init := updates[..|updates| - 1];
    forall j | 0 <= j < i && updates[j].typ == typ && NoneBetween(updates, typ, j, i)
      ensures updates[j].status != updates[i].status
    {
      assert NoneBetween(init, typ, j, i);
    }
  }

  lemma ChangedNow(updates: seq<Condition>, typ: string, i: nat)
    requires updates != [] && ChangedAt(updates[..|updates| - 1], typ, i)
    requires var last := updates[|updates| - 1]; last.typ == typ && last.status != updates[i].status
    ensures ChangedAt(updates, typ, |updates| - 1)
  {
    var n := |updates| - 1;
    forall j | 0 <= j < n && updates[j].typ == typ && NoneBetween(updates, typ, j, n)
      ensures updates[j].status != updates[n].status
    {
      assert j >= i;
      assert updates[..n][j] == updates[j];
    }
  }

  lemma {:induction false} NeverSet(updates: seq<Condition>, typ: string)
    requires forall c <- updates :: c.typ != typ
    ensures forall c <- Updated([], updates) :: c.typ != typ
  {
    if updates != [] {
      NeverSet(updates[..|updates| - 1], typ);
    }
  }

  /** What a reconcile depends on besides its own state; `explain` is the text of a build error. */
  datatype Inputs = Inputs(codec: Codec, world: World, proxy: Key, generation: int, connected: bool,
                           explain: Outcome -> string)

  /**
   * The state a reconcile updates; `writes` counts the status updates that changed the object and so
   * caused an event.
   */
  datatype Effects = Effects(cache: map<string, Snapshot>, status: Status, writes: nat)

  function SetStatus(e: Effects, generation: int, c: Condition): Effects {
    var status := Status(WithCondition(e.status.conditions, c), generation);
    e.(status := status, writes := e.writes + if status == e.status then 0 else 1)
  }

  function ConnectedCondition(inp: Inputs, now: int): Condition {
    Condition(CONNECTED, inp.connected, "StreamStatus", "", inp.generation, now)
  }

  function ReadyCondition(inp: Inputs, version: string, now: int): Condition {
    Condition(READY, true, "SnapshotReady", "version=" + version, inp.generation, now)
  }

  function FailedCondition(inp: Inputs, out: Outcome, now: int): Condition {
    Condition(READY, false, "SnapshotBuildFailed", inp.explain(out), inp.generation, now)
  }

  /** What a reconcile does once its outcome is known, at the times `now` and `later` of its two status updates. */
  function Concluded(e: Effects, inp: Inputs, out: Outcome, now: int, later: int): Effects {
    match out
    case BadMarshal => e
    case BadSpec(_, _) => SetStatus(e, inp.generation, FailedCondition(inp, out, now))
    case Good(snapshot) =>
      var cached := e.(cache := e.cache[NodeId(inp.proxy) := snapshot]);
      SetStatus(SetStatus(cached, inp.generation, ConnectedCondition(inp, now)), inp.generation,
                ReadyCondition(inp, snapshot.version, later))
  }

  /** One reconcile against one state of the world. */
  function Reconciled(e: Effects, inp: Inputs, now: int, later: int): Effects {
    if inp.proxy !in inp.world.proxies then e
    else Concluded(e, inp, FromScratch(inp.codec, inp.world, inp.proxy), now, later)
  }

  // ----- What a reconcile reports, on the fields of the status -----

  /** Condition `i` is the first of its type. */
  predicate FirstOf(cs: seq<Condition>, typ: string, i: nat) {
    i < |cs| && cs[i].typ == typ && forall j | 0 <= j < i :: cs[j].typ != typ
  }

  /** The first condition of a type, which is the one that counts, says this. */
  ghost predicate Reported(cs: seq<Condition>, typ: string, status: bool, reason: string, message: string,
                           generation: int) {
    exists i: nat ::
      && FirstOf(cs, typ, i) && cs[i].status == status && cs[i].reason == reason && cs[i].message == message
      && cs[i].generation == generation
  }

  /** What is said about a type is as it was, its transition time included. */
  ghost predicate AsBefore(before: seq<Condition>, after: seq<Condition>, typ: string) {
    forall i: nat ::
      && (FirstOf(before, typ, i) <==> FirstOf(after, typ, i))
      && (FirstOf(before, typ, i) ==> before[i] == after[i])
  }

  /**
   * The update of one condition: the first of its type is replaced, or there is one more at the end;
   * the others stay. The transition time is kept exactly if there was one with the same status.
   */
  ghost predicate Replaces(before: seq<Condition>, after: seq<Condition>, c: Condition) {
    exists i: nat ::
      && FirstOf(after, c.typ, i)
      && after[i].status == c.status && after[i].reason == c.reason && after[i].message == c.message
      && after[i].generation == c.generation
      && (if i < |before| then |after| == |before| && FirstOf(before, c.typ, i) else i == |before| == |after| - 1)
      && (after[i].since == if i < |before| && before[i].status == c.status then before[i].since else c.since)
      && forall j: nat | j < |before| && j != i :: after[j] == before[j]
  }

  lemma UpdateReplaces(cs: seq<Condition>, c: Condition)
    ensures Replaces(cs, WithCondition(cs, c), c)
    ensures Reported(WithCondition(cs, c), c.typ, c.status, c.reason, c.message, c.generation)
    ensures forall typ :: typ != c.typ ==> AsBefore(cs, WithCondition(cs, c), typ)
  {
    var i, after := Find(cs, c.typ), WithCondition(cs, c);
    var at: nat := if i.Some? then i.value else |cs|;
    assert FirstOf(after, c.typ, at);
    assert forall k | 0 <= k < |cs| :: after[k].typ == cs[k].typ && (k != at ==> after[k] == cs[k]);
    forall typ | typ != c.typ ensures AsBefore(cs, after, typ) {
      OthersStay(cs, after, c, typ);
    }
  }

  lemma OthersStay(before: seq<Condition>, after: seq<Condition>, c: Condition, typ: string)
    requires typ != c.typ && |before| <= |after| <= |before| + 1
    requires forall k | 0 <= k < |before| ::
               after[k].typ == before[k].typ && (before[k].typ != c.typ ==> after[k] == before[k])
    requires |after| > |before| ==> after[|before|].typ == c.typ
    ensures AsBefore(before, after, typ)
  {
    forall i: nat ensures FirstOf(before, typ, i) <==> FirstOf(after, typ, i) {
      if i < |before| {
        assert forall j | 0 <= j < i :: after[j].typ == before[j].typ;
      }
    }
  }

  /** What a reconcile makes of cache and status, without and with a proxy, a good, a bad and an unmarshalled build. */
  ghost predicate Reports(before: Effects, after: Effects, inp: Inputs) {
    if inp.proxy !in inp.world.proxies then after == before
    else
      match FromScratch(inp.codec, inp.world, inp.proxy)
      case BadMarshal => after == before
      case BadSpec(kind, i) =>
        && after.cache == before.cache
        && Reported(after.status.conditions, "Ready", false, "SnapshotBuildFailed", inp.explain(BadSpec(kind, i)),
                    inp.generation)
        && after.status.observedGeneration == inp.generation
        && (forall typ :: typ != "Ready" ==> AsBefore(before.status.conditions, after.status.conditions, typ))
      case Good(snapshot) =>
        && after.cache == before.cache[inp.proxy.name + "." + inp.proxy.namespace := snapshot]
        && Reported(after.status.conditions, "Connected", inp.connected, "StreamStatus", "", inp.generation)
        && Reported(after.status.conditions, "Ready", true, "SnapshotReady", "version=" + snapshot.version,
                    inp.generation)
        && after.status.observedGeneration == inp.generation
        && (forall typ :: typ != "Ready" && typ != "Connected" ==>
              AsBefore(before.status.conditions, after.status.conditions, typ))
  }

  lemma {:induction false} ReconcileReports(e: Effects, inp: Inputs, now: int, later: int)
    ensures Reports(e, Reconciled(e, inp, now, later), inp)
  {
    var out := FromScratch(inp.codec, inp.world, inp.proxy);
    if inp.proxy in inp.world.proxies && !out.BadMarshal? {
      var cs := e.status.conditions;
      match out
      case BadSpec(_, _) => UpdateReplaces(cs, FailedCondition(inp, out, now));
      case Good(snapshot) => TwoUpdates(cs, ConnectedCondition(inp, now), ReadyCondition(inp, snapshot.version, later));
    }
  }

  /** After the updates of two types both are reported, and all others are as before. */
  lemma {:induction false} TwoUpdates(cs: seq<Condition>, c: Condition, d: Condition)
    requires c.typ != d.typ
    ensures var after := WithCondition(WithCondition(cs, c), d);
            && Reported(after, c.typ, c.status, c.reason, c.message, c.generation)
            && Reported(after, d.typ, d.status, d.reason, d.message, d.generation)
            && forall typ :: typ != c.typ && typ != d.typ ==> AsBefore(cs, after, typ)
  {
    var once := WithCondition(cs, c);
    var after := WithCondition(once, d);
    UpdateReplaces(cs, c);
    UpdateReplaces(once, d);
    StillReported(cs, c, d);
    forall typ | typ != c.typ && typ != d.typ ensures AsBefore(cs, after, typ) {
      assert AsBefore(cs, once, typ) && AsBefore(once, after, typ);
      forall i: nat ensures FirstOf(cs, typ, i) <==> FirstOf(after, typ, i)
                    ensures FirstOf(cs, typ, i) ==> cs[i] == after[i]
      {
        assert FirstOf(cs, typ, i) <==> FirstOf(once, typ, i);
      }
    }
  }

  /** A report survives the update of another type. */
  lemma StillReported(cs: seq<Condition>, c: Condition, d: Condition)
    requires c.typ != d.typ
    ensures Reported(WithCondition(WithCondition(cs, c), d), c.typ, c.status, c.reason, c.message, c.generation)
  {
    var once := WithCondition(cs, c);
    UpdateReplaces(cs, c);
    UpdateReplaces(once, d);
    var i: nat :| FirstOf(once, c.typ, i) && once[i].status == c.status && once[i].reason == c.reason
                  && once[i].message == c.message && once[i].generation == c.generation;
    assert AsBefore(once, WithCondition(once, d), c.typ);
  }

  class Reconciler {
    var cache: map<string, Snapshot>
    var status: Status
    var writes: nat

    ghost function Now(): Effects
      reads this
    {
      Effects(cache, status, writes)
    }

    method SetCondition(generation: int, c: Condition)
      modifies this
      ensures Now() == SetStatus(old(Now()), generation, c)
      ensures Replaces(old(status.conditions), status.conditions, c) && status.observedGeneration == generation
      ensures writes == old(writes) + (if status == old(status) then 0 else 1) && cache == old(cache)
    {
      UpdateReplaces(status.conditions, c);
      var before := status;
      var conditions := status.conditions;
      var i := 0;
      while i < |conditions| && conditions[i].typ != c.typ
        invariant 0 <= i <= |conditions| && forall j | 0 <= j < i :: conditions[j].typ != c.typ
      {
        i := i + 1;
      }
      if i == |conditions| {
        conditions := conditions + [c];
      } else {
        FindUnique(conditions, c.typ, i);
        var since := if conditions[i].status == c.status then conditions[i].since else c.since;
        conditions := conditions[i := c.(since := since)];
      }
      status := Status(conditions, generation);
      if status != before {
        writes := writes + 1;
      }
    }

    /** `Reconcile` with status writes that succeed; `ok` is false when it returns an error. */
    method Reconcile(inp: Inputs, now: int, later: int) returns (ok: bool)
      modifies this
      ensures Now() == Reconciled(old(Now()), inp, now, later)
      ensures ok <==> inp.proxy !in inp.world.proxies || FromScratch(inp.codec, inp.world, inp.proxy).Good?
      ensures Reports(old(Now()), Now(), inp)
    {
      ReconcileReports(Now(), inp, now, later);
      if inp.proxy !in inp.world.proxies {
        return true;
      }
      var out := Pass(inp.codec, inp.world, inp.proxy);
      match out {
        case BadMarshal =>
          return false;
        case BadSpec(_, _) =>
          SetCondition(inp.generation, FailedCondition(inp, out, now));
          return false;
        case Good(snapshot) =>
          cache := cache[NodeId(inp.proxy) := snapshot];
          SetCondition(inp.generation, ConnectedCondition(inp, now));
          SetCondition(inp.generation, ReadyCondition(inp, snapshot.version, later));
          return true;
      }
    }

    /**
     * `Reconcile` with the xDS server that tells whether the proxy is connected: a proxy that builds is
     * reported connected exactly when a request of its node follows the last close of any of its streams.
     */
    method ReconcileOn(server: Streams.Server, inp: Inputs, now: int, later: int) returns (ok: bool)
      requires server.Valid()
      modifies this
      ensures Reports(old(Now()), Now(), inp.(connected := NodeId(inp.proxy) in Streams.Run(server.trace)))
      ensures inp.proxy in inp.world.proxies && ok ==>
                exists i: nat ::
                  && FirstOf(status.conditions, "Connected", i)
                  && (status.conditions[i].status
                      <==> exists n: nat :: Streams.LiveRequest(server.trace, NodeId(inp.proxy), n))
    {
      var connected := server.IsConnected(NodeId(inp.proxy));
      Streams.ConnectedIffLiveRequest(server.trace, NodeId(inp.proxy));
      ok := Reconcile(inp.(connected := connected), now, later);
    }

    /**
     * The proxy is queued, and each status write that changes something queues it again: at most
     * two reconciles run, at whatever times, and then the Ready message names the version in the cache.
     */
    method Drain(inp: Inputs, clock: nat -> int) returns (rounds: nat)
      requires inp.proxy in inp.world.proxies && FromScratch(inp.codec, inp.world, inp.proxy).Good?
      modifies this
      ensures rounds <= 2
      ensures NodeId(inp.proxy) in cache
              && FromScratch(inp.codec, inp.world, inp.proxy) == Good(cache[NodeId(inp.proxy)])
      ensures Reported(status.conditions, "Ready", true, "SnapshotReady",
                       "version=" + cache[NodeId(inp.proxy)].version, inp.generation)
      ensures Reported(status.conditions, "Connected", inp.connected, "StreamStatus", "", inp.generation)
      ensures forall t, u :: Reconciled(Now(), inp, t, u) == Now()
    {
      var queued := true;
      ghost var before := Now();
      rounds := 0;
      while queued
        invariant rounds <= 2 && (rounds == 2 ==> !queued) && (rounds == 0 ==> queued)
        invariant rounds > 0 ==> Settled(Now(), inp) && Reports(before, Now(), inp)
        decreases 2 - rounds
      {
        var writesBefore := writes;
        ghost var start := Now();
        before := start;
        var now, later := clock(2 * rounds), clock(2 * rounds + 1);
        var ok := Reconcile(inp, now, later);
        FirstSettles(start, inp, now, later);
        if rounds > 0 {
          SettledStays(start, inp, now, later);
        }
        queued := writes != writesBefore;
        rounds := rounds + 1;
      }
      forall t, u ensures Reconciled(Now(), inp, t, u) == Now() {
        SettledStays(Now(), inp, t, u);
      }
    }
  }

  /** The state that a reconcile with the given successful outcome leaves behind. */
  ghost predicate SettledWith(e: Effects, inp: Inputs, snapshot: Snapshot) {
    var id := NodeId(inp.proxy);
    && id in e.cache && e.cache[id] == snapshot
    && e.status.observedGeneration == inp.generation
    && Has(e.status.conditions, ConnectedCondition(inp, 0))
    && Has(e.status.conditions, ReadyCondition(inp, snapshot.version, 0))
  }

  ghost predicate Settled(e: Effects, inp: Inputs) {
    var out := FromScratch(inp.codec, inp.world, inp.proxy);
    out.Good? && SettledWith(e, inp, out.snapshot)
  }

  lemma ConcludedSettles(e: Effects, inp: Inputs, snapshot: Snapshot, now: int, later: int)
    ensures SettledWith(Concluded(e, inp, Good(snapshot), now, later), inp, snapshot)
  {
    var c, d := ConnectedCondition(inp, now), ReadyCondition(inp, snapshot.version, later);
    var cs := e.status.conditions;
    SetHas(cs, c);
    SetHas(WithCondition(cs, c), d);
    SetKeeps(WithCondition(cs, c), d, c);
  }

  lemma SettledWithStays(e: Effects, inp: Inputs, snapshot: Snapshot, now: int, later: int)
    requires SettledWith(e, inp, snapshot)
    ensures Concluded(e, inp, Good(snapshot), now, later) == e
  {
    HasIsFixed(e.status.conditions, ConnectedCondition(inp, now));
    HasIsFixed(e.status.conditions, ReadyCondition(inp, snapshot.version, later));
    assert e.cache[NodeId(inp.proxy) := snapshot] == e.cache;
  }

  lemma FirstSettles(e: Effects, inp: Inputs, now: int, later: int)
    requires inp.proxy in inp.world.proxies && FromScratch(inp.codec, inp.world, inp.proxy).Good?
    ensures Settled(Reconciled(e, inp, now, later), inp)
  {
    ConcludedSettles(e, inp, FromScratch(inp.codec, inp.world, inp.proxy).snapshot, now, later);
  }

  lemma SettledStays(e: Effects, inp: Inputs, now: int, later: int)
    requires inp.proxy in inp.world.proxies && Settled(e, inp)
    ensures Reconciled(e, inp, now, later) == e
  {
    SettledWithStays(e, inp, FromScratch(inp.codec, inp.world, inp.proxy).snapshot, now, later);
  }

  /** A second reconcile with the same outcome changes nothing, whether it succeeds or fails. */
  lemma ConcludingIsIdempotent(e: Effects, inp: Inputs, out: Outcome, t: int, u: int, now: int, later: int)
    ensures var once := Concluded(e, inp, out, t, u); Concluded(once, inp, out, now, later) == once
  {
    var once := Concluded(e, inp, out, t, u);
    match out
    case BadMarshal =>
    case BadSpec(_, _) =>
      SetHas(e.status.conditions, FailedCondition(inp, out, t));
      HasIsFixed(once.status.conditions, FailedCondition(inp, out, now));
    case Good(snapshot) =>
      ConcludedSettles(e, inp, snapshot, t, u);
      SettledWithStays(once, inp, snapshot, now, later);
  }

  /**
   * With the world, its list order and the connection frozen, a second reconcile changes nothing,
   * whether it succeeds or fails.
   */
  lemma ReconcileIsIdempotent(e: Effects, inp: Inputs, t: int, u: int, now: int, later: int)
    ensures var once := Reconciled(e, inp, t, u); Reconciled(once, inp, now, later) == once
  {
    ConcludingIsIdempotent(e, inp, FromScratch(inp.codec, inp.world, inp.proxy), t, u, now, later);
  }
}
