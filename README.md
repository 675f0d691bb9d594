# BaseGenerator, modelled in Dafny

GraphStream's `BaseGenerator` is the shared base class of its graph
generators. A concrete generator calls `addNode`, `addNode(id, x, y)`,
`delNode`, `addEdge` and `delEdge`. The base class turns each call into an
ordered run of events for the sinks listening to the generator. It can also
keep an internal mirror graph in step with those events. Its configuration
is:

- the `directed` and `randomlyDirected` flags;
- the node and edge label flags;
- two name→factory registries whose factories draw attribute values from the
  generator's random source;
- the internal-graph switch.

The model has five modules:

- `Protocol` (protocol.dfy) defines the events and the attribute events a
  registry produces. It also defines `Live`, the ids an event log leaves
  alive (adds minus removes). It proves the layout of what `addNode` and
  `addEdge` send.
- `Direction` (direction.dfy) covers the swap decision and the default edge
  id `from + "_" + to`.
- `MirrorGraph` (mirror.dfy) is the internal graph reduced to what the
  generator does with it: node ids, edge ids and attribute values.
- `Generator` (generator.dfy) holds the class `BaseGenerator`. Its fields are
  the Java fields. The event sink is an append-only `log`. The random source
  is a seed plus a count of draws taken. The class invariant `Valid()` says
  two things: the mirror exists exactly while it is in use, and its node and
  edge ids are exactly those alive in the events sent since it was allocated
  or cleared. The class `GeneratorCounter` is the static instance counter.
- `Scenarios` (scenarios.dfy) holds concrete runs with the exact events they
  send.

A draw is `Draw(seed, index)`: the `index`-th call on the random source
since `seed` was set. A factory applied to a draw gives the opaque value
`Sample(factory, draw)`. The swap test `nextFloat() > 0.5f` is a function
`coin` from draws to booleans, given to the constructor.

A `HashMap` visits its keys in an order nobody specifies. The model allows
any order that visits each key once (`IsEnumeration`). The emission methods
return that order as a ghost result, and their contracts hold for whichever
order it is.

Where the class documentation and the code disagree, the model follows the
code. The javadoc of `setUseInternalGraph` says that attributes are stored
in the internal graph, but the `label` attribute is only sent, never set on
the mirror.

Two more behaviours a reader may not expect, both modelled as the code has
them:

- `setDirectedEdges(false, …)` does not clear `randomlyDirected`. A generator
  can therefore have `randomlyDirected` while `directed` is false. Random
  orientation comes back once `directed` is set again (see
  `Scenarios.RandomDirectionSticks`).
- `end()` empties the mirror but keeps it allocated.

## Model

| member | source | states |
|---|---|---|
| Generator.BaseGenerator.constructor | src/org/graphstream/algorithm/generator/BaseGenerator.java:153-156 | The instance takes the counter's current value as its id. That id was never issued before. The counter goes up by one. `directed` is set as by `setDirectedEdges`. The registries are empty, labels and mirroring are off, and nothing has been sent. |
| Generator.BaseGenerator.Default | src/org/graphstream/algorithm/generator/BaseGenerator.java:139-141 | Same as the two-argument constructor with `(false, false)`. |
| Generator.BaseGenerator.WithAttributes | src/org/graphstream/algorithm/generator/BaseGenerator.java:173-179 | Same as the two-argument constructor, plus one uniform [0, 1) attribute registered for nodes and one for edges. |
| Generator.BaseGenerator.SetRandomSeed | src/org/graphstream/algorithm/generator/BaseGenerator.java:201-203 | Restarts the random stream: the given seed is in force and the next draw is its first. |
| Generator.BaseGenerator.AddNodeLabels | src/org/graphstream/algorithm/generator/BaseGenerator.java:212-214 | The node label flag becomes `on`. Nothing else changes. |
| Generator.BaseGenerator.AddEdgeLabels | src/org/graphstream/algorithm/generator/BaseGenerator.java:223-225 | The edge label flag becomes `on`. Nothing else changes. |
| Generator.BaseGenerator.SetDirectedEdges | src/org/graphstream/algorithm/generator/BaseGenerator.java:237-242 | `directed` is always overwritten. `randomlyDirected` becomes true when both arguments hold and otherwise keeps its value, so it is never cleared. |
| Generator.BaseGenerator.AddNodeAttribute | src/org/graphstream/algorithm/generator/BaseGenerator.java:254-256 | The node registry maps `name` to `factory`, replacing any earlier entry. No other entry changes. |
| Generator.BaseGenerator.AddNodeAttributeInRange | src/org/graphstream/algorithm/generator/BaseGenerator.java:271-273 | Registers the uniform factory over [min, max) under `name`. |
| Generator.BaseGenerator.AddNodeAttributeUnit | src/org/graphstream/algorithm/generator/BaseGenerator.java:285-287 | Registers the uniform factory over [0, 1) under `name`. |
| Generator.BaseGenerator.RemoveNodeAttribute | src/org/graphstream/algorithm/generator/BaseGenerator.java:296-298 | Removes `name` from the node registry. Removing an absent name changes nothing. |
| Generator.BaseGenerator.AddEdgeAttribute | src/org/graphstream/algorithm/generator/BaseGenerator.java:310-312 | The edge registry maps `name` to `factory`, replacing any earlier entry. |
| Generator.BaseGenerator.AddEdgeAttributeInRange | src/org/graphstream/algorithm/generator/BaseGenerator.java:327-329 | Registers the uniform factory over [min, max) for edges. |
| Generator.BaseGenerator.AddEdgeAttributeUnit | src/org/graphstream/algorithm/generator/BaseGenerator.java:341-343 | Registers the uniform factory over [0, 1) for edges. |
| Generator.BaseGenerator.RemoveEdgeAttribute | src/org/graphstream/algorithm/generator/BaseGenerator.java:352-354 | Removes `name` from the edge registry. |
| Generator.BaseGenerator.SetUseInternalGraph | src/org/graphstream/algorithm/generator/BaseGenerator.java:366-379 | Afterwards the flag is `on` and a mirror exists iff `on`. Turning it on keeps an existing mirror unchanged, or else allocates an empty one. Turning it off discards the mirror. The invariant is kept. |
| Generator.BaseGenerator.IsUsingInternalGraph | src/org/graphstream/algorithm/generator/BaseGenerator.java:386-388 | Returns the flag. Under the invariant, the result is true exactly when a mirror exists. |
| Generator.GeneratorCounter.constructor | src/org/graphstream/algorithm/generator/BaseGenerator.java:131 | The static instance counter starts at zero with no number issued. |
| Generator.BaseGenerator.NextDraw | src/org/graphstream/algorithm/generator/BaseGenerator.java:461 | Takes the next value of the random stream: the draw at the current position under the seed in force. The position advances by one. |
| Generator.Enumerate | src/org/graphstream/algorithm/generator/BaseGenerator.java:426 | The registry's iteration order: every key exactly once, in some order. |
| Generator.Visit | src/org/graphstream/algorithm/generator/BaseGenerator.java:426-433 | The `forEach` loop: the k-th visited factory is applied to the k-th draw, and its event is appended. When there is a mirror, the value is also set on it. Exactly one draw is taken per visited factory. |
| Generator.BaseGenerator.ApplyAttributes | src/org/graphstream/algorithm/generator/BaseGenerator.java:479-486 | Applies a whole registry in some enumeration order: the attribute events are appended, the draw position advances by the registry's size, and the mirror receives the same values. |
| Generator.BaseGenerator.AddNode | src/org/graphstream/algorithm/generator/BaseGenerator.java:417-434 | The log grows by NodeAdded(id), then the label iff node labels are on, then one event per registered node attribute. Exactly one draw is taken per attribute. With mirroring on, the mirror gains the node and the sampled values. The invariant is kept. |
| Generator.BaseGenerator.AddNodeAt | src/org/graphstream/algorithm/generator/BaseGenerator.java:401-409 | Exactly what `AddNode` sends, followed by NodeAttributeAdded(id, "xy", (x, y)). The position is also set on the mirror when mirroring. No extra draw is taken. |
| Generator.BaseGenerator.DelNode | src/org/graphstream/algorithm/generator/BaseGenerator.java:442-447 | Sends NodeRemoved(id) and nothing else. The mirror loses the node and its attributes. There is no existence check, and the invariant is kept. |
| Generator.BaseGenerator.OrientEnds | src/org/graphstream/algorithm/generator/BaseGenerator.java:461-465 | Takes one draw iff edges are directed and randomly directed, and none otherwise. Swaps the endpoints iff that draw was taken and exceeds one half. |
| Generator.BaseGenerator.SendEdge | src/org/graphstream/algorithm/generator/BaseGenerator.java:470-486 | Sends EdgeAdded with the current `directed` flag, then the label iff edge labels are on, then one event per registered edge attribute. The mirror gains the edge and the sampled values, and the invariant is kept. |
| Generator.BaseGenerator.AddEdge | src/org/graphstream/algorithm/generator/BaseGenerator.java:460-487 | The whole call, in terms of the draw position on entry. The swap draw comes first. The id is the one given, or else the endpoints after the swap joined by '_'. The attribute draws follow the swap draw. |
| Generator.BaseGenerator.DelEdge | src/org/graphstream/algorithm/generator/BaseGenerator.java:495-500 | Sends EdgeRemoved(id) and nothing else. The mirror loses the edge and its attributes, and the invariant is kept. |
| Generator.BaseGenerator.ClearKeptData | src/org/graphstream/algorithm/generator/BaseGenerator.java:508-511 | With mirroring on, the mirror becomes empty. Otherwise nothing changes. Nothing is sent. |
| Generator.BaseGenerator.End | src/org/graphstream/algorithm/generator/BaseGenerator.java:191-193 | Clears the kept data. Sends nothing, and leaves the random source and the draw position alone. |
| Direction.Orient | src/org/graphstream/algorithm/generator/BaseGenerator.java:461-465 | The endpoints after the swap decision are the same two ids. They are `(to, from)` when a swap was decided and `(from, to)` otherwise. |
| Direction.EdgeIdOf | src/org/graphstream/algorithm/generator/BaseGenerator.java:467-468 | A given id is kept. A missing id becomes `from`, then '_', then `to`: its length is \|from\| + 1 + \|to\|, it starts with `from`, it ends with `to`, and '_' sits between them. |
| Direction.DefaultIdRoundTrip | src/org/graphstream/algorithm/generator/BaseGenerator.java:467-468 | When `from` has no '_', splitting the synthesised id at its first '_' gives back both endpoints. |
| Direction.DefaultIdCollision | src/org/graphstream/algorithm/generator/BaseGenerator.java:467-468 | Without that condition, two different edges (a_b→c and a→b_c) get the same id "a_b_c". |
| Protocol.EnumerationSize | src/org/graphstream/algorithm/generator/BaseGenerator.java:426 | An iteration order of a registry has exactly as many entries as the registry has keys. |
| Protocol.AttributesExactlyOnce | src/org/graphstream/algorithm/generator/BaseGenerator.java:426-433 | In any iteration order, the registry produces exactly one event per registered attribute. Each event names its attribute, names are distinct, and the k-th event carries its factory applied to the k-th draw. |
| Protocol.AttributeEventAt | src/org/graphstream/algorithm/generator/BaseGenerator.java:426-430 | The k-th event of a registry application is the attribute event for the k-th visited name, carrying that name's factory applied to the k-th draw. |
| Protocol.AttributeEventsAreAttributes | src/org/graphstream/algorithm/generator/BaseGenerator.java:426-430 | Everything a registry application sends is an attribute event. None of it adds or removes a node or an edge. |
| Protocol.NodeAddedEventsLayout | src/org/graphstream/algorithm/generator/BaseGenerator.java:417-434 | What `addNode` sends has length 1 + (labels ? 1 : 0) + \|registry\|. NodeAdded comes first, then the label when on, then exactly one event per registered attribute. |
| Protocol.EdgeAddedEventsLayout | src/org/graphstream/algorithm/generator/BaseGenerator.java:470-486 | The same layout for `addEdge`, with EdgeAdded carrying the `directed` flag first. |
| Protocol.LiveIsAddsMinusRemoves | src/org/graphstream/algorithm/generator/BaseGenerator.java:442-447 | An id is alive after a log iff some event added it and no later event removed it. This is the meaning of the mirror's id sets under the invariant. |
| Protocol.LiveIgnoresAttributes | src/org/graphstream/algorithm/generator/BaseGenerator.java:426-433 | Attribute events never change which nodes or edges are alive. |
| Protocol.NodeAddedEventsLive | src/org/graphstream/algorithm/generator/BaseGenerator.java:417-424 | After what `addNode(id)` sends, `id` is an alive node and the alive edges are unchanged. |
| Protocol.EdgeAddedEventsLive | src/org/graphstream/algorithm/generator/BaseGenerator.java:470-473 | After what `addEdge` sends, the edge id is alive and the alive nodes are unchanged. |
| MirrorGraph.SetSamplesFrame | src/org/graphstream/algorithm/generator/BaseGenerator.java:431-432 | Applying a registry to an entity touches only that entity's visited attributes in its own scope. Ids and the other scope are unchanged, and no attribute is lost. |
| MirrorGraph.SetSamplesValues | src/org/graphstream/algorithm/generator/BaseGenerator.java:431-432 | After a registry is applied, each visited attribute holds its factory applied to its own draw. |
| MirrorGraph.SetSamplesAgreeWithEvents | src/org/graphstream/algorithm/generator/BaseGenerator.java:426-433 | The mirror and the sink agree: each visited attribute on the mirror holds the value of the event sent for it. |
| MirrorGraph.NodeAddedKeepsIds | src/org/graphstream/algorithm/generator/BaseGenerator.java:417-434 | A mirror whose ids match the log still matches after `addNode`. |
| MirrorGraph.EdgeAddedKeepsIds | src/org/graphstream/algorithm/generator/BaseGenerator.java:460-487 | A mirror whose ids match the log still matches after `addEdge`. |
| Scenarios.UndirectedDefaultId | src/org/graphstream/algorithm/generator/BaseGenerator.java:467-470 | On an undirected generator, `addEdge(null, "a", "b")` sends exactly EdgeAdded("a_b", "a", "b", false) and takes no draw. |
| Scenarios.LabelledNode | src/org/graphstream/algorithm/generator/BaseGenerator.java:417-421 | With node labels on, `addNode("n1")` sends NodeAdded("n1"), then NodeAttributeAdded("n1", "label", "n1"). |
| Scenarios.RandomDirectionSticks | src/org/graphstream/algorithm/generator/BaseGenerator.java:237-242 | Runs `setDirectedEdges(true, true)`, then `(false, false)`, then `(true, false)`, then `addEdge(null, "a", "b")` with a draw above one half. The edge sent is "b_a", from "b" to "a", and one draw is taken. |
| Scenarios.PositionedNode | src/org/graphstream/algorithm/generator/BaseGenerator.java:401-409 | With one registered node attribute, `addNode("n", 1, 2)` sends NodeAdded, that attribute from the first draw, then the position. |
| Scenarios.MirroredNodeThenEnd | src/org/graphstream/algorithm/generator/BaseGenerator.java:508-511 | With mirroring on, `addNode("a")` puts "a" in the mirror. `end()` then empties the mirror and sends nothing. |
| Scenarios.MirroredEdgeRemoved | src/org/graphstream/algorithm/generator/BaseGenerator.java:495-500 | With mirroring on, adding then removing edge "e" sends EdgeAdded and EdgeRemoved, and leaves the mirror's edge set empty. |
| Scenarios.RestartWithSeed | src/org/graphstream/algorithm/generator/BaseGenerator.java:191-203 | `end()` followed by `setRandomSeed` with the first seed makes the same `addEdge` send the same events as the first run. |

## Left out

- The source id `String.format("generator-%08x", …)` is not modelled, and events do not carry the source id. The instance number itself is modelled.
- GeneratorCounter: the counter is a `nat`. The Java `int` wrap-around after 2^32 instances and the non-atomic `generatorId++` on a volatile field under concurrent construction are not modelled. The counter is an object passed to the constructor, not a static field, so "never issued before" holds per counter object. Nothing makes the counter unique per process.
- `java.util.Random` internals are not modelled. A draw is named by its seed and position. The initial seed of `new Random()` is a constructor parameter. `nextFloat() > 0.5f` is the opaque `coin` function. In Java the value of the k-th call depends on the kinds of the earlier calls, because `nextDouble()` advances the generator two steps and `nextFloat()` one. The model gives the k-th draw the same abstract value whatever came before.
- Floating point is not modelled: factories and their values are opaque, positions are `real`, and the range law `min + (max - min) * nextDouble()` is not proved.
- A caller-supplied factory (`Custom`) is modelled as taking exactly one draw. A Java factory may draw any number of values from the shared `Random`, and that would shift every later draw.
- Generator.Visit: the `forEach` loop runs on copies of the log, the draw position and the mirror, which `ApplyAttributes` writes back. The fields are not updated one attribute at a time. No code can observe the intermediate states, because the class is single-threaded and factories cannot see the generator.
- `AdjacencyListGraph` semantics are not modelled beyond ids and attribute values:
  - Edge endpoints are not kept, so removing a node does not remove its edges from the mirror. The edge ids follow the events instead.
  - In non-strict mode, `addEdge` on a missing endpoint adds no edge. A registered edge attribute would then make `getEdge(id).setAttribute` dereference null. The model always adds the edge.
  - `clear()` on an internal graph that is being discarded is modelled as dropping it.
- DelNode: `delNode` updates the mirror before it sends NodeRemoved. The model's log cannot see the mirror, so the contract cannot observe this order; only the method body keeps it.
- DelEdge: `delEdge` sends EdgeRemoved before it updates the mirror. This order is likewise not observable in the model and is kept only by the method body. The same holds for the mirror insert relative to the events in `AddNode` and `SendEdge`.
- Scenarios.RestartWithSeed: shown for a one-key registry only. Each emission call may pick any enumeration of a registry, so the model cannot say that an unchanged `HashMap` iterates in the same order in both runs.
- The sink dispatch of `SourceBase` (listeners, time ids) is not modelled. Sending an event appends it to `log`.
- `Generator` interface methods that concrete generators implement (`begin`, `nextEvents`) are not part of this class and are not modelled.
