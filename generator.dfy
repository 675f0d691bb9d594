/** The shared base of the graph generators: configuration, the attribute
    registries, the random source, the optional internal mirror graph, and the
    operations that turn "add/remove this node/edge" into sink events. */
module Generator {
  import opened Protocol
  import opened Direction
  import MirrorGraph

  /** The process-wide counter that numbers generator instances. */
  class GeneratorCounter {
    var next: nat
    ghost var issued: set<nat>

    ghost predicate Valid()
      reads this
    {
      forall n :: n in issued ==> n < next
    }

    constructor ()
      ensures Valid() && next == 0 && issued == {}
    {
      next := 0;
      issued := {};
    }
  }

  /** The keys of a hash map in its iteration order, which is left
      unspecified: any order that visits each key once. */
  method Enumerate(keys: set<string>) returns (names: seq<string>)
    ensures IsEnumeration(names, keys)
  {
    var remaining := keys;
    names := [];
    while remaining != {}
      invariant remaining <= keys
      invariant forall k :: 0 <= k < |names| ==> names[k] in keys && names[k] !in remaining
      invariant forall n :: n in keys ==> n in remaining || n in names
      invariant forall i, j :: 0 <= i < j < |names| ==> names[i] != names[j]
      decreases remaining
    {
      var n :| n in remaining;
      names := names + [n];
      remaining := remaining - {n};
    }
  }

  /** The `forEach` over a registry, visiting `names` in order, on the
      state it changes: the events sent, the position in the random stream
      and the mirror. The k-th factory is applied to the k-th draw from
      `start`; its value is sent and, when there is a mirror, set on it. */
  method Visit(scope: Scope, id: Id, names: seq<string>, reg: map<string, Factory>, seed: int,
               log0: seq<Event>, start: nat, m0: Option<MirrorGraph.Mirror>)
    returns (log: seq<Event>, drawn: nat, m: Option<MirrorGraph.Mirror>)
    requires Registered(names, reg)
    ensures log == log0 + AttributeEvents(scope, id, names, reg, seed, start)
    ensures drawn == start + |names|
    ensures m == if m0.None? then None else Some(MirrorGraph.SetSamples(m0.value, scope, id, names, reg, seed, start))
  {
    log, drawn, m := log0, start, m0;
    var k := 0;
    while k < |names|
      invariant k <= |names|
      invariant drawn == start + k
      invariant log == log0 + AttributeEvents(scope, id, names[..k], reg, seed, start)
      invariant m == if m0.None? then None else Some(MirrorGraph.SetSamples(m0.value, scope, id, names[..k], reg, seed, start))
    {
      var value := Sample(reg[names[k]], Draw(seed, drawn));
      drawn := drawn + 1;
      log := log + [AttributeEvent(scope, id, names[k], value)];
      if m.Some? {
        m := Some(MirrorGraph.SetAttribute(m.value, scope, id, names[k], value));
      }
      AttributeEventsStep(scope, id, names, reg, seed, start, k);
      if m0.Some? {
        MirrorGraph.SetSamplesStep(m0.value, scope, id, names, reg, seed, start, k);
      }
      k := k + 1;
    }
    assert names[..k] == names;
  }

  class BaseGenerator {
    /** The instance number the source id is built from. */
    const generatorId: nat
    /** Whether a draw of the random source exceeds one half, for the swap
        decision of `AddEdge`. */
    const coin: Draw -> bool

    var directed: bool
    var randomlyDirected: bool
    var nodeAttributes: map<string, Factory>
    var edgeAttributes: map<string, Factory>
    /** The random source: the seed in force and how many draws were taken
        since it was set. */
    var seed: int
    var drawn: nat
    var addNodeLabels: bool
    var addEdgeLabels: bool
    var useInternalGraph: bool
    var internalGraph: Option<MirrorGraph.Mirror>
    /** Everything sent to the sink so far. */
    var log: seq<Event>
    /** Where in `log` the mirror was last allocated or cleared. */
    ghost var epoch: nat

    /** The mirror exists exactly while it is in use, and its ids are those
        that the events sent since it was allocated or cleared add and do not
        remove. */
    ghost predicate Valid()
      reads this`useInternalGraph, this`internalGraph, this`epoch, this`log
    {
      && (useInternalGraph <==> internalGraph.Some?)
      && epoch <= |log|
      && (internalGraph.Some? ==>
            && internalGraph.value.nodes == Live(log[epoch..], Nodes)
            && internalGraph.value.edges == Live(log[epoch..], Edges))
    }

    function Registry(scope: Scope): map<string, Factory>
      reads this`nodeAttributes, this`edgeAttributes
    {
      match scope
      case NodeScope => nodeAttributes
      case EdgeScope => edgeAttributes
    }

    /** A new generator takes the next instance number; `directed` and
        `randomlyDirectedEdges` are applied as by `SetDirectedEdges`. */
    constructor (counter: GeneratorCounter, coin: Draw -> bool, seed: int,
                 directed: bool, randomlyDirectedEdges: bool)
      requires counter.Valid()
      modifies counter
      ensures Valid() && counter.Valid()
      ensures generatorId == old(counter.next) && generatorId !in old(counter.issued)
      ensures counter.issued == old(counter.issued) + {generatorId} && counter.next == old(counter.next) + 1
      ensures this.directed == directed && randomlyDirected == (directed && randomlyDirectedEdges)
      ensures nodeAttributes == map[] && edgeAttributes == map[]
      ensures !addNodeLabels && !addEdgeLabels && !useInternalGraph && internalGraph == None
      ensures this.coin == coin && this.seed == seed && drawn == 0 && log == []
    {
      generatorId := counter.next;
      this.coin := coin;
      this.directed := false;
      randomlyDirected := false;
      nodeAttributes := map[];
      edgeAttributes := map[];
      this.seed := seed;
      drawn := 0;
      addNodeLabels := false;
      addEdgeLabels := false;
      useInternalGraph := false;
      internalGraph := None;
      log := [];
      epoch := 0;
      new;
      counter.next := counter.next + 1;
      counter.issued := counter.issued + {generatorId};
      SetDirectedEdges(directed, randomlyDirectedEdges);
    }

    /** The no-argument constructor: undirected edges, nothing registered. */
    constructor Default(counter: GeneratorCounter, coin: Draw -> bool, seed: int)
      requires counter.Valid()
      modifies counter
      ensures Valid() && counter.Valid()
      ensures generatorId == old(counter.next) && generatorId !in old(counter.issued)
      ensures counter.issued == old(counter.issued) + {generatorId} && counter.next == old(counter.next) + 1
      ensures !directed && !randomlyDirected
      ensures nodeAttributes == map[] && edgeAttributes == map[]
      ensures !addNodeLabels && !addEdgeLabels && !useInternalGraph && internalGraph == None
      ensures this.coin == coin && this.seed == seed && drawn == 0 && log == []
    {
      generatorId := counter.next;
      this.coin := coin;
      directed := false;
      randomlyDirected := false;
      nodeAttributes := map[];
      edgeAttributes := map[];
      this.seed := seed;
      drawn := 0;
      addNodeLabels := false;
      addEdgeLabels := false;
      useInternalGraph := false;
      internalGraph := None;
      log := [];
      epoch := 0;
      new;
      counter.next := counter.next + 1;
      counter.issued := counter.issued + {generatorId};
      SetDirectedEdges(false, false);
    }

    /** Same, with one uniform [0, 1) attribute registered for nodes and one
        for edges. */
    constructor WithAttributes(counter: GeneratorCounter, coin: Draw -> bool, seed: int,
                               directed: bool, randomlyDirectedEdges: bool,
                               nodeAttribute: string, edgeAttribute: string)
      requires counter.Valid()
      modifies counter
      ensures Valid() && counter.Valid()
      ensures generatorId == old(counter.next) && generatorId !in old(counter.issued)
      ensures counter.issued == old(counter.issued) + {generatorId} && counter.next == old(counter.next) + 1
      ensures this.directed == directed && randomlyDirected == (directed && randomlyDirectedEdges)
      ensures nodeAttributes == map[nodeAttribute := Uniform(0.0, 1.0)]
      ensures edgeAttributes == map[edgeAttribute := Uniform(0.0, 1.0)]
      ensures !addNodeLabels && !addEdgeLabels && !useInternalGraph && internalGraph == None
      ensures this.coin == coin && this.seed == seed && drawn == 0 && log == []
    {
      generatorId := counter.next;
      this.coin := coin;
      this.directed := false;
      randomlyDirected := false;
      nodeAttributes := map[];
      edgeAttributes := map[];
      this.seed := seed;
      drawn := 0;
      addNodeLabels := false;
      addEdgeLabels := false;
      useInternalGraph := false;
      internalGraph := None;
      log := [];
      epoch := 0;
      new;
      counter.next := counter.next + 1;
      counter.issued := counter.issued + {generatorId};
      SetDirectedEdges(directed, randomlyDirectedEdges);
      AddNodeAttributeUnit(nodeAttribute);
      AddEdgeAttributeUnit(edgeAttribute);
    }

    // -----------------------------------------------------------------
    // Configuration

    /** Restarts the random stream. */
    method SetRandomSeed(seed: int)
      modifies this`seed, this`drawn
      ensures this.seed == seed && drawn == 0
    {
      this.seed := seed;
      drawn := 0;
    }

    method AddNodeLabels(on: bool)
      modifies this`addNodeLabels
      ensures addNodeLabels == on
    {
      addNodeLabels := on;
    }

    method AddEdgeLabels(on: bool)
      modifies this`addEdgeLabels
      ensures addEdgeLabels == on
    {
      addEdgeLabels := on;
    }

    /** `directed` is always overwritten; `randomlyDirected` is set only when
        both arguments hold and is never cleared. */
    method SetDirectedEdges(directed: bool, randomly: bool)
      modifies this`directed, this`randomlyDirected
      ensures this.directed == directed
      ensures randomlyDirected == (old(randomlyDirected) || (directed && randomly))
    {
      this.directed := directed;
      if directed && randomly {
        randomlyDirected := randomly;
      }
    }

    method AddNodeAttribute(name: string, factory: Factory)
      modifies this`nodeAttributes
      ensures nodeAttributes == old(nodeAttributes)[name := factory]
    {
      nodeAttributes := nodeAttributes[name := factory];
    }

    /** Registers `min + (max - min) * nextDouble()`. */
    method AddNodeAttributeInRange(name: string, min: real, max: real)
      modifies this`nodeAttributes
      ensures nodeAttributes == old(nodeAttributes)[name := Uniform(min, max)]
    {
      AddNodeAttribute(name, Uniform(min, max));
    }

    /** Registers the unit range [0, 1). */
    method AddNodeAttributeUnit(name: string)
      modifies this`nodeAttributes
      ensures nodeAttributes == old(nodeAttributes)[name := Uniform(0.0, 1.0)]
    {
      AddNodeAttributeInRange(name, 0.0, 1.0);
    }

    /** Removing a name that is not registered changes nothing. */
    method RemoveNodeAttribute(name: string)
      modifies this`nodeAttributes
      ensures nodeAttributes == old(nodeAttributes) - {name}
    {
      nodeAttributes := nodeAttributes - {name};
    }

    method AddEdgeAttribute(name: string, factory: Factory)
      modifies this`edgeAttributes
      ensures edgeAttributes == old(edgeAttributes)[name := factory]
    {
      edgeAttributes := edgeAttributes[name := factory];
    }

    method AddEdgeAttributeInRange(name: string, min: real, max: real)
      modifies this`edgeAttributes
      ensures edgeAttributes == old(edgeAttributes)[name := Uniform(min, max)]
    {
      AddEdgeAttribute(name, Uniform(min, max));
    }

    method AddEdgeAttributeUnit(name: string)
      modifies this`edgeAttributes
      ensures edgeAttributes == old(edgeAttributes)[name := Uniform(0.0, 1.0)]
    {
      AddEdgeAttributeInRange(name, 0.0, 1.0);
    }

    method RemoveEdgeAttribute(name: string)
      modifies this`edgeAttributes
      ensures edgeAttributes == old(edgeAttributes) - {name}
    {
      edgeAttributes := edgeAttributes - {name};
    }

    /** Turning the mirror on allocates an empty one unless one exists, which
        is then kept as it is; turning it off discards it. */
    method SetUseInternalGraph(on: bool)
      requires Valid()
      modifies this`useInternalGraph, this`internalGraph, this`epoch
      ensures Valid()
      ensures useInternalGraph == on && (internalGraph.Some? <==> on)
      ensures on && old(internalGraph).Some? ==> internalGraph == old(internalGraph)
      ensures on && old(internalGraph).None? ==> internalGraph == Some(MirrorGraph.Empty)
    {
      useInternalGraph := on;
      if !on && internalGraph.Some? {
        internalGraph := None;
      }
      if on && internalGraph.None? {
        internalGraph := Some(MirrorGraph.Empty);
        epoch := |log|;
      }
    }

    method IsUsingInternalGraph() returns (on: bool)
      requires Valid()
      ensures on == useInternalGraph && (on <==> internalGraph.Some?)
    {
      on := useInternalGraph;
    }

    // -----------------------------------------------------------------
    // Emission

    /** Takes the next draw of the random source. */
    method NextDraw() returns (d: Draw)
      modifies this`drawn
      ensures d == Draw(seed, old(drawn)) && drawn == old(drawn) + 1
    {
      d := Draw(seed, drawn);
      drawn := drawn + 1;
    }

    /** Applies every registered factory of `scope` to `id`, in the
        registry's own (unspecified) order `order`: one draw, one event and,
        when mirroring, one mirror attribute per factory. */
    method ApplyAttributes(scope: Scope, id: Id) returns (ghost order: seq<string>)
      modifies this`log, this`drawn, this`internalGraph
      ensures IsEnumeration(order, Registry(scope).Keys)
      ensures log == old(log) + AttributeEvents(scope, id, order, Registry(scope), seed, old(drawn))
      ensures drawn == old(drawn) + |Registry(scope)|
      ensures internalGraph == if old(internalGraph).None? then None
        else Some(MirrorGraph.SetSamples(old(internalGraph).value, scope, id, order, Registry(scope), seed, old(drawn)))
    {
      var names := Enumerate(Registry(scope).Keys);
      log, drawn, internalGraph := Visit(scope, id, names, Registry(scope), seed, log, drawn, internalGraph);
      order := names;
      EnumerationSize(order, Registry(scope).Keys);
    }

    /** `addNode(id)`: NodeAdded, the label if node labels are on, then the
        node registry. */
    method AddNode(id: Id) returns (ghost order: seq<string>)
      requires Valid()
      modifies this`log, this`drawn, this`internalGraph
      ensures Valid()
      ensures IsEnumeration(order, nodeAttributes.Keys)
      ensures log == old(log) + NodeAddedEvents(id, addNodeLabels, order, nodeAttributes, seed, old(drawn))
      ensures drawn == old(drawn) + |nodeAttributes|
      ensures internalGraph == if old(internalGraph).None? then None
        else Some(MirrorGraph.SetSamples(MirrorGraph.AddNode(old(internalGraph).value, id),
                                         NodeScope, id, order, nodeAttributes, seed, old(drawn)))
    {
      log := log + [NodeAdded(id)];
      if addNodeLabels {
        log := log + [NodeAttributeAdded(id, "label", Text(id))];
      }
      if useInternalGraph {
        internalGraph := Some(MirrorGraph.AddNode(internalGraph.value, id));
      }
      ghost var sent := [NodeAdded(id)] + LabelEvents(NodeScope, addNodeLabels, id);
      assert log == old(log) + sent;
      order := ApplyAttributes(NodeScope, id);
      AppendAssociative(old(log), sent, AttributeEvents(NodeScope, id, order, nodeAttributes, seed, old(drawn)));
      MirrorGraph.NodeAddedKeepsIds(old(log), epoch, old(internalGraph), id, addNodeLabels,
                                    order, nodeAttributes, seed, old(drawn));
    }

    /** `addNode(id, x, y)`: exactly `addNode(id)`, then the position. */
    method AddNodeAt(id: Id, x: real, y: real) returns (ghost order: seq<string>)
      requires Valid()
      modifies this`log, this`drawn, this`internalGraph
      ensures Valid()
      ensures IsEnumeration(order, nodeAttributes.Keys)
      ensures log == old(log) + NodeAddedEvents(id, addNodeLabels, order, nodeAttributes, seed, old(drawn))
                    + [NodeAttributeAdded(id, "xy", Xy(x, y))]
      ensures drawn == old(drawn) + |nodeAttributes|
      ensures internalGraph == if old(internalGraph).None? then None
        else Some(MirrorGraph.SetAttribute(
               MirrorGraph.SetSamples(MirrorGraph.AddNode(old(internalGraph).value, id),
                                      NodeScope, id, order, nodeAttributes, seed, old(drawn)),
               NodeScope, id, "xy", Xy(x, y)))
    {
      order := AddNode(id);
      ghost var before := log;
      log := log + [NodeAttributeAdded(id, "xy", Xy(x, y))];
      assert log[epoch..] == before[epoch..] + [NodeAttributeAdded(id, "xy", Xy(x, y))];
      if useInternalGraph {
        internalGraph := Some(MirrorGraph.SetAttribute(internalGraph.value, NodeScope, id, "xy", Xy(x, y)));
      }
    }

    /** `delNode(id)`: the mirror first, then NodeRemoved. No existence check. */
    method DelNode(id: Id)
      requires Valid()
      modifies this`log, this`internalGraph
      ensures Valid()
      ensures log == old(log) + [NodeRemoved(id)]
      ensures internalGraph == if old(internalGraph).None? then None
        else Some(MirrorGraph.RemoveNode(old(internalGraph).value, id))
    {
      if useInternalGraph {
        internalGraph := Some(MirrorGraph.RemoveNode(internalGraph.value, id));
      }
      ghost var before := log;
      log := log + [NodeRemoved(id)];
      assert log[epoch..] == before[epoch..] + [NodeRemoved(id)];
    }

    /** The swap decision of `addEdge`: one draw iff edges are directed and
        randomly directed, and the endpoints exchanged when it exceeds one
        half. */
    method OrientEnds(from: Id, to: Id) returns (f: Id, t: Id)
      modifies this`drawn
      ensures drawn == old(drawn) + if DrawsSwap(directed, randomlyDirected) then 1 else 0
      ensures (f, t) == Orient(DrawsSwap(directed, randomlyDirected) && coin(Draw(seed, old(drawn))), from, to)
    {
      f, t := from, to;
      if directed && randomlyDirected {
        var d := NextDraw();
        if coin(d) {
          f, t := to, from;
        }
      }
    }

    /** What `addEdge` sends once the endpoints and the id are settled:
        EdgeAdded, the label if edge labels are on, and the edge registry. */
    method SendEdge(eid: Id, f: Id, t: Id) returns (ghost order: seq<string>)
      requires Valid()
      modifies this`log, this`drawn, this`internalGraph
      ensures Valid()
      ensures IsEnumeration(order, edgeAttributes.Keys)
      ensures log == old(log) + EdgeAddedEvents(eid, f, t, directed, addEdgeLabels,
                                                order, edgeAttributes, seed, old(drawn))
      ensures drawn == old(drawn) + |edgeAttributes|
      ensures internalGraph == if old(internalGraph).None? then None
        else Some(MirrorGraph.SetSamples(MirrorGraph.AddEdge(old(internalGraph).value, eid),
                                         EdgeScope, eid, order, edgeAttributes, seed, old(drawn)))
    {
      log := log + [EdgeAdded(eid, f, t, directed)];
      if useInternalGraph {
        internalGraph := Some(MirrorGraph.AddEdge(internalGraph.value, eid));
      }
      if addEdgeLabels {
        log := log + [EdgeAttributeAdded(eid, "label", Text(eid))];
      }
      ghost var sent := [EdgeAdded(eid, f, t, directed)] + LabelEvents(EdgeScope, addEdgeLabels, eid);
      assert log == old(log) + sent;
      order := ApplyAttributes(EdgeScope, eid);
      AppendAssociative(old(log), sent, AttributeEvents(EdgeScope, eid, order, edgeAttributes, seed, old(drawn)));
      MirrorGraph.EdgeAddedKeepsIds(old(log), epoch, old(internalGraph), eid, f, t, directed, addEdgeLabels,
                                    order, edgeAttributes, seed, old(drawn));
    }

    /** `addEdge(id, from, to)`: the swap decision, then the id, made when
        absent from the endpoints after the swap, then what `SendEdge` sends. */
    method AddEdge(id: Option<Id>, from: Id, to: Id) returns (ghost order: seq<string>)
      requires Valid()
      modifies this`log, this`drawn, this`internalGraph
      ensures Valid()
      ensures IsEnumeration(order, edgeAttributes.Keys)
      ensures var swapDrawn := DrawsSwap(directed, randomlyDirected);
              var ends := Orient(swapDrawn && coin(Draw(seed, old(drawn))), from, to);
              var eid := EdgeIdOf(id, ends.0, ends.1);
              var first := old(drawn) + (if swapDrawn then 1 else 0);
        && log == old(log) + EdgeAddedEvents(eid, ends.0, ends.1, directed, addEdgeLabels,
                                             order, edgeAttributes, seed, first)
        && drawn == first + |edgeAttributes|
        && internalGraph == if old(internalGraph).None? then None
             else Some(MirrorGraph.SetSamples(MirrorGraph.AddEdge(old(internalGraph).value, eid),
                                              EdgeScope, eid, order, edgeAttributes, seed, first))
    {
      var f, t := OrientEnds(from, to);
      var eid := EdgeIdOf(id, f, t);
      order := SendEdge(eid, f, t);
    }

    /** `delEdge(id)`: EdgeRemoved first, then the mirror. */
    method DelEdge(id: Id)
      requires Valid()
      modifies this`log, this`internalGraph
      ensures Valid()
      ensures log == old(log) + [EdgeRemoved(id)]
      ensures internalGraph == if old(internalGraph).None? then None
        else Some(MirrorGraph.RemoveEdge(old(internalGraph).value, id))
    {
      ghost var before := log;
      log := log + [EdgeRemoved(id)];
      assert log[epoch..] == before[epoch..] + [EdgeRemoved(id)];
      if useInternalGraph {
        internalGraph := Some(MirrorGraph.RemoveEdge(internalGraph.value, id));
      }
    }

    /** Empties the mirror when it is in use; sends nothing. */
    method ClearKeptData()
      requires Valid()
      modifies this`internalGraph, this`epoch
      ensures Valid()
      ensures internalGraph == if useInternalGraph then Some(MirrorGraph.Empty) else old(internalGraph)
    {
      if useInternalGraph {
        internalGraph := Some(MirrorGraph.Empty);
        epoch := |log|;
      }
    }

    /** `end()`: clears the kept data so that generation can restart; sends
        no event and leaves the configuration and the random source alone. */
    method End()
      requires Valid()
      modifies this`internalGraph, this`epoch
      ensures Valid()
      ensures log == old(log) && drawn == old(drawn) && seed == old(seed)
      ensures internalGraph == if useInternalGraph then Some(MirrorGraph.Empty) else old(internalGraph)
    {
      ClearKeptData();
    }
  }
}
