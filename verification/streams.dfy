/** Tracking of connected Envoy proxies by the callbacks of the xDS server. */
module Streams {
  import opened Options

  /** The server's `connected` map, which holds node ids and no counts, and the events it has seen. */
  class Server {
    var connected: set<string>
    ghost var trace: seq<Event>

    ghost predicate Valid()
      reads this
    {
      connected == Run(trace)
    }

    constructor ()
      ensures Valid() && trace == []
    {
      connected, trace := {}, [];
    }

    method StreamRequest(stream: int, node: Option<string>)
      requires Valid()
      modifies this
      ensures Valid() && trace == old(trace) + [Request(stream, node)]
    {
      if node.Some? && node.value != "" {
        connected := connected + {node.value};
      }
      trace := trace + [Request(stream, node)];
    }

    method StreamClosed(stream: int, node: Option<string>)
      requires Valid()
      modifies this
      ensures Valid() && trace == old(trace) + [Closed(stream, node)]
    {
      if node.Some? && node.value != "" {
        connected := connected - {node.value};
      }
      trace := trace + [Closed(stream, node)];
    }

    /** Whether a request of the node follows the last close of any of its streams. */
    method IsConnected(id: string) returns (b: bool)
      requires Valid()
      ensures b <==> id != "" && exists i: nat :: LiveRequest(trace, id, i)
    {
      b := id in connected;
      if id == "" {
        NoEmptyId(trace);
      } else {
        ConnectedIffLiveRequest(trace, id);
      }
    }
  }

  datatype Event =
    | Opened(stream: int)
    | Request(stream: int, node: Option<string>)
    | Closed(stream: int, node: Option<string>)

  function After(connected: set<string>, e: Event): set<string> {
    match e
    case Opened(_) => connected
    case Request(_, node) => if node.Some? && node.value != "" then connected + {node.value} else connected
    case Closed(_, node) => if node.Some? && node.value != "" then connected - {node.value} else connected
  }

  /** What the map holds after a trace of events. */
  function Run(trace: seq<Event>): set<string> {
    if trace == [] then {} else After(Run(trace[..|trace| - 1]), trace[|trace| - 1])
  }

  lemma {:induction false} NoEmptyId(trace: seq<Event>)
    ensures "" !in Run(trace)
  {
    if trace != [] {
      NoEmptyId(trace[..|trace| - 1]);
    }
  }

  /** A request for the node at position `i`, with no close for the node after it. */
  predicate LiveRequest(trace: seq<Event>, id: string, i: nat) {
    && i < |trace| && trace[i].Request? && trace[i].node == Some(id)
    && forall j | i < j < |trace| :: !(trace[j].Closed? && trace[j].node == Some(id))
  }

  /**
   * A node is reported connected exactly when one of its streams sent a request after the last close
   * of any of them.
   */
  lemma {:induction false} ConnectedIffLiveRequest(trace: seq<Event>, id: string)
    requires id != ""
    ensures id in Run(trace) <==> exists i: nat :: LiveRequest(trace, id, i)
  {
    if trace != [] {
      var n := |trace| - 1;
      var init, last := trace[..n], trace[n];
      ConnectedIffLiveRequest(init, id);
      if id in Run(trace) {
        if last.Request? && last.node == Some(id) {
          assert LiveRequest(trace, id, n);
        } else {
          var i: nat :| LiveRequest(init, id, i);
          assert LiveRequest(trace, id, i);
        }
      }
      if exists i: nat :: LiveRequest(trace, id, i) {
        var i: nat :| LiveRequest(trace, id, i);
        if i < n {
          assert LiveRequest(init, id, i);
        }
      }
    }
  }

  // ----- Traces of a real server: each stream keeps one node id -----

  function Open(trace: seq<Event>): set<int> {
    if trace == [] then {}
    else
      var before := Open(trace[..|trace| - 1]);
      match trace[|trace| - 1]
      case Opened(s) => before + {s}
      case Request(_, _) => before
      case Closed(s, _) => before - {s}
  }

  /** The streams that have sent a request. */
  function Asked(trace: seq<Event>): set<int> {
    set i | 0 <= i < |trace| && trace[i].Request? :: trace[i].stream
  }

  /** Requests and closes are of open streams; a close names the node only if the stream named it before. */
  predicate Legal(trace: seq<Event>, owner: int -> string) {
    trace == [] ||
    var init := trace[..|trace| - 1];
    && Legal(init, owner)
    && match trace[|trace| - 1]
       case Opened(s) => s !in Open(init) && s !in Asked(init)
       case Request(s, node) => s in Open(init) && node == Some(owner(s))
       case Closed(s, node) => s in Open(init) && node == if s in Asked(init) then Some(owner(s)) else None
  }

  lemma AskedGrows(trace: seq<Event>)
    requires trace != []
    ensures var init, last := trace[..|trace| - 1], trace[|trace| - 1];
            Asked(trace) == Asked(init) + if last.Request? then {last.stream} else {}
  {
    var init, last := trace[..|trace| - 1], trace[|trace| - 1];
    forall s ensures s in Asked(trace) <==> s in Asked(init) || (last.Request? && last.stream == s) {
      if s in Asked(trace) {
        var i :| 0 <= i < |trace| && trace[i].Request? && trace[i].stream == s;
        assert i < |init| ==> init[i] == trace[i];
      }
      if s in Asked(init) {
        var i :| 0 <= i < |init| && init[i].Request? && init[i].stream == s;
        assert trace[i] == init[i];
      }
      if last.Request? && last.stream == s {
        assert trace[|trace| - 1].stream == s;
      }
    }
  }

  /** The stream is open, has sent a request, and belongs to the node. */
  predicate Serves(trace: seq<Event>, owner: int -> string, id: string, s: int) {
    s in Open(trace) && s in Asked(trace) && owner(s) == id
  }

  /** Reported connected implies an open stream of the node that has sent a request. */
  lemma {:induction false} ConnectedHasStream(trace: seq<Event>, owner: int -> string, id: string)
    requires Legal(trace, owner) && id in Run(trace)
    ensures id != "" && exists s :: Serves(trace, owner, id, s)
  {
    var n := |trace| - 1;
    var init, last := trace[..n], trace[n];
    AskedGrows(trace);
    if id != "" && last.Request? && last.node == Some(id) {
      assert Serves(trace, owner, id, last.stream);
    } else {
      ConnectedHasStream(init, owner, id);
      var s :| Serves(init, owner, id, s);
      assert Serves(trace, owner, id, s);
    }
  }

  /** At no time do two open streams belong to one node. */
  predicate OneStreamPerNode(trace: seq<Event>, owner: int -> string) {
    forall n | 0 <= n <= |trace| :: OwnersDiffer(Open(trace[..n]), owner)
  }

  predicate OwnersDiffer(streams: set<int>, owner: int -> string) {
    forall s, t | s in streams && t in streams && owner(s) == owner(t) :: s == t
  }

  /** With at most one open stream per node, reported connected means an open stream that has sent a request. */
  lemma {:induction false} ConnectedIffStream(trace: seq<Event>, owner: int -> string, id: string)
    requires Legal(trace, owner) && OneStreamPerNode(trace, owner) && id != ""
    ensures id in Run(trace) <==> exists s :: Serves(trace, owner, id, s)
  {
    if id in Run(trace) {
      ConnectedHasStream(trace, owner, id);
    } else if trace != [] {
      var n := |trace| - 1;
      var init, last := trace[..n], trace[n];
      AskedGrows(trace);
      InitKeepsOneStream(trace, owner);
      ConnectedIffStream(init, owner, id);
      forall s ensures !Serves(trace, owner, id, s) {
        if Serves(trace, owner, id, s) {
          StreamWasThere(trace, owner, id, s);
        }
      }
    }
  }

  lemma InitKeepsOneStream(trace: seq<Event>, owner: int -> string)
    requires trace != [] && OneStreamPerNode(trace, owner)
    ensures OneStreamPerNode(trace[..|trace| - 1], owner) && OwnersDiffer(Open(trace[..|trace| - 1]), owner)
  {
    var init := trace[..|trace| - 1];
    forall n | 0 <= n <= |init| ensures OwnersDiffer(Open(init[..n]), owner) {
      assert init[..n] == trace[..n];
    }
    assert init[..|init|] == init;
  }

  /** If a stream serves the node although the node is reported unconnected, it did so one event earlier. */
  lemma StreamWasThere(trace: seq<Event>, owner: int -> string, id: string, s: int)
    requires Legal(trace, owner) && trace != [] && OneStreamPerNode(trace, owner) && id != ""
    requires id !in Run(trace) && Serves(trace, owner, id, s)
    ensures Serves(trace[..|trace| - 1], owner, id, s) && id !in Run(trace[..|trace| - 1])
  {
    AskedGrows(trace);
    InitKeepsOneStream(trace, owner);
  }

  /** A close of the node at position `j`, with no request of the node after it. */
  predicate ClosedSince(trace: seq<Event>, id: string, j: nat) {
    && j < |trace| && trace[j].Closed? && trace[j].node == Some(id)
    && forall i | j < i < |trace| :: !(trace[i].Request? && trace[i].node == Some(id))
  }

  /** After a request of the node, the last event of the node is a request or a close. */
  lemma {:induction false} LiveOrClosed(trace: seq<Event>, id: string, first: nat)
    requires first < |trace| && trace[first].Request? && trace[first].node == Some(id)
    ensures (exists i: nat :: LiveRequest(trace, id, i)) <==> !exists j: nat :: ClosedSince(trace, id, j)
  {
    var n := |trace| - 1;
    var init, last := trace[..n], trace[n];
    if last.Request? && last.node == Some(id) {
      assert LiveRequest(trace, id, n);
      assert forall j: nat :: !ClosedSince(trace, id, j);
    } else if last.Closed? && last.node == Some(id) {
      assert ClosedSince(trace, id, n);
      assert forall i: nat :: !LiveRequest(trace, id, i);
    } else {
      LiveOrClosed(init, id, first);
      assert forall i: nat :: LiveRequest(trace, id, i) <==> LiveRequest(init, id, i);
      assert forall j: nat :: ClosedSince(trace, id, j) <==> ClosedSince(init, id, j);
    }
  }

  lemma {:induction false} ServingAsked(trace: seq<Event>, owner: int -> string, s: int) returns (i: nat)
    requires Legal(trace, owner) && s in Asked(trace)
    ensures i < |trace| && trace[i].Request? && trace[i].node == Some(owner(s))
  {
    var n := |trace| - 1;
    AskedGrows(trace);
    if s in Asked(trace[..n]) {
      i := ServingAsked(trace[..n], owner, s);
    } else {
      i := n;
    }
  }

  /**
   * On every legal trace the report and the truth differ exactly when a stream serves the node and
   * some stream of the node was closed with no request of the node since.
   */
  lemma {:induction false} ReportedDiffersIff(trace: seq<Event>, owner: int -> string, id: string)
    requires Legal(trace, owner) && id != ""
    ensures (id in Run(trace) <==> exists s :: Serves(trace, owner, id, s))
       <==> !((exists s :: Serves(trace, owner, id, s)) && exists j: nat :: ClosedSince(trace, id, j))
  {
    ConnectedIffLiveRequest(trace, id);
    if id in Run(trace) {
      ConnectedHasStream(trace, owner, id);
    }
    if exists s :: Serves(trace, owner, id, s) {
      var s :| Serves(trace, owner, id, s);
      var i := ServingAsked(trace, owner, s);
      LiveOrClosed(trace, id, i);
    }
  }

  /** Two streams of node `n`, of which one is closed. */
  const TWO_STREAMS: seq<Event> := [Opened(1), Opened(2), Request(1, Some("n")), Request(2, Some("n")),
                                    Closed(2, Some("n"))]

  /** With two streams the converse fails: one of them closes, and the node counts as gone. */
  lemma SecondStreamForgotten()
    ensures Legal(TWO_STREAMS, _ => "n") && Serves(TWO_STREAMS, _ => "n", "n", 1) && "n" !in Run(TWO_STREAMS)
  {
    var t := TWO_STREAMS;
    assert t[..4][..3] == t[..3] && t[..3][..2] == t[..2] && t[..2][..1] == t[..1] && t[..1][..0] == [];
    assert |t[..4]| == 4 && |t[..3]| == 3 && |t[..2]| == 2 && |t[..1]| == 1;
    AskedGrows(t);
    AskedGrows(t[..4]);
    AskedGrows(t[..3]);
    AskedGrows(t[..2]);
    AskedGrows(t[..1]);
    assert Asked([]) == {};
    assert Open(t[..1]) == {1} && Open(t[..2]) == {1, 2} && Open(t[..3]) == {1, 2} && Open(t[..4]) == {1, 2}
           && Open(t) == {1};
    assert Legal(t[..1], _ => "n") && Legal(t[..2], _ => "n");
    assert Legal(t[..3], _ => "n") && Legal(t[..4], _ => "n");
  }
}
