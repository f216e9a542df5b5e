/** State machines held as explicit tables of edges, and the two tables a mount
    walks: what it knows of the root pointer, and its mode. */
module Machines {
  import opened Wrappers

  datatype Edge<S, E> = Edge(from: S, on: E, to: S)

  /** What NewTable insists on: no two edges leave one state on one event. */
  ghost predicate Deterministic<S, E>(edges: seq<Edge<S, E>>) {
    forall i, j :: 0 <= i < j < |edges| ==> edges[i].from != edges[j].from || edges[i].on != edges[j].on
  }

  /** The state an edge leads to from `from` on `on`, if the table has one. */
  function Next<S(==), E(==)>(edges: seq<Edge<S, E>>, from: S, on: E): (r: Option<S>)
    ensures r.None? <==> forall i :: 0 <= i < |edges| ==> edges[i].from != from || edges[i].on != on
    ensures r.Some? ==> Edge(from, on, r.value) in edges
  {
    if edges == [] then None
    else if edges[0].from == from && edges[0].on == on then Some(edges[0].to)
    else Next(edges[1..], from, on)
  }

  /** In a deterministic table the lookup is exactly the edge relation. */
  lemma NextIsTheEdge<S, E>(edges: seq<Edge<S, E>>, e: Edge<S, E>)
    requires Deterministic(edges)
    ensures e in edges <==> Next(edges, e.from, e.on) == Some(e.to)
  {
    if e in edges {
      var r := Next(edges, e.from, e.on);
      assert r.Some?;
      assert Edge(e.from, e.on, r.value) in edges;
    }
  }

  class Machine<S(==), E(==)> {
    const edges: seq<Edge<S, E>>
    var state: S

    constructor (edges: seq<Edge<S, E>>, initial: S)
      ensures this.edges == edges && state == initial
    {
      this.edges, state := edges, initial;
    }

    /** Moves along the edge from the current state on `on`; with no such edge
        nothing changes and the current state is returned twice. */
    method Fire(on: E) returns (from: S, to: S, ok: bool)
      modifies this
      ensures from == old(state) && to == state
      ensures ok == Next(edges, old(state), on).Some?
      ensures state == if ok then Next(edges, old(state), on).value else old(state)
    {
      from := state;
      var next := Next(edges, state, on);
      ok := next.Some?;
      if ok {
        state := next.value;
      }
      to := state;
    }
  }

  // What a mount knows of the root pointer.

  datatype Knowledge = Known | InDoubt
  datatype RootEvent = SwapOK | SwapUnknown | SawOurs | SawUnchanged

  const ROOT_EDGES: seq<Edge<Knowledge, RootEvent>> :=
    [Edge(Known, SwapOK, Known),
     Edge(Known, SwapUnknown, InDoubt),
     Edge(InDoubt, SawOurs, Known),
     Edge(InDoubt, SawUnchanged, Known)]

  function RootNext(from: Knowledge, on: RootEvent): (r: Option<Knowledge>)
  {
    match (from, on)
    case (Known, SwapOK) => Some(Known)
    case (Known, SwapUnknown) => Some(InDoubt)
    case (InDoubt, SawOurs) => Some(Known)
    case (InDoubt, SawUnchanged) => Some(Known)
    case _ => None
  }

  lemma RootNextIsTheTable(from: Knowledge, on: RootEvent)
    ensures Deterministic(ROOT_EDGES)
    ensures RootNext(from, on) == Next(ROOT_EDGES, from, on)
  {
    var t := ROOT_EDGES;
    var r := Next(t, from, on);
    if r.None? {
      assert t[0].from != from || t[0].on != on;
      assert t[1].from != from || t[1].on != on;
      assert t[2].from != from || t[2].on != on;
      assert t[3].from != from || t[3].on != on;
    } else {
      assert Edge(from, on, r.value) in t;
    }
  }

  // The mode of a mount.

  datatype Mode = Writable | ReadOnly | Diverged
  datatype ModeEvent = Diverge

  const MODE_EDGES: seq<Edge<Mode, ModeEvent>> := [Edge(Writable, Diverge, Diverged)]

  function ModeNext(from: Mode): (r: Option<Mode>)
  {
    if from == Writable then Some(Diverged) else None
  }

  lemma ModeNextIsTheTable(from: Mode)
    ensures Deterministic(MODE_EDGES)
    ensures ModeNext(from) == Next(MODE_EDGES, from, Diverge)
  {
    var r := Next(MODE_EDGES, from, Diverge);
    if r.None? {
      assert MODE_EDGES[0].from != from;
    } else {
      assert Edge(from, Diverge, r.value) in MODE_EDGES;
    }
  }
}
