/** Concrete runs of a generator, each stating the exact events it sends. */
module Scenarios {
  import opened Protocol
  import opened Direction
  import MirrorGraph
  import opened Generator

  /** An undirected generator with no registries: `addEdge(null, "a", "b")`
      sends one event, for the edge "a_b", and takes no draw. */
  method UndirectedDefaultId() returns (events: seq<Event>, drawn: nat)
    ensures events == [EdgeAdded("a_b", "a", "b", false)]
    ensures drawn == 0
  {
    var counter := new GeneratorCounter();
    var g := new BaseGenerator(counter, d => true, 0, false, true);
    ghost var order := g.AddEdge(None, "a", "b");
    EnumerationSize(order, g.edgeAttributes.Keys);
    assert order == [];
    assert EdgeIdOf(None, "a", "b") == "a_b";
    assert g.log == EdgeAddedEvents("a_b", "a", "b", false, false, [], map[], 0, 0);
    assert g.log == [EdgeAdded("a_b", "a", "b", false)];
    events, drawn := g.log, g.drawn;
  }

  /** With node labels on, `addNode("n1")` sends NodeAdded then the label. */
  method LabelledNode() returns (events: seq<Event>)
    ensures events == [NodeAdded("n1"), NodeAttributeAdded("n1", "label", Text("n1"))]
  {
    var counter := new GeneratorCounter();
    var g := new BaseGenerator(counter, d => true, 0, false, false);
    g.AddNodeLabels(true);
    ghost var order := g.AddNode("n1");
    EnumerationSize(order, g.nodeAttributes.Keys);
    assert order == [];
    assert g.log == NodeAddedEvents("n1", true, [], map[], 0, 0);
    events := g.log;
  }

  /** Random direction survives a later `setDirectedEdges(false, false)`:
      once edges are directed again, the swap draw is taken, and a draw
      above one half reverses the edge, whose id is made after the swap. */
  method RandomDirectionSticks() returns (events: seq<Event>, drawn: nat)
    ensures events == [EdgeAdded("b_a", "b", "a", true)]
    ensures drawn == 1
  {
    var counter := new GeneratorCounter();
    var g := new BaseGenerator(counter, d => true, 0, false, false);
    g.SetDirectedEdges(true, true);
    g.SetDirectedEdges(false, false);
    g.SetDirectedEdges(true, false);
    assert g.directed && g.randomlyDirected;
    ghost var order := g.AddEdge(None, "a", "b");
    EnumerationSize(order, g.edgeAttributes.Keys);
    assert order == [];
    assert g.coin(Draw(0, 0));
    assert Orient(true, "a", "b") == ("b", "a");
    assert EdgeIdOf(None, "b", "a") == "b_a";
    assert g.log == EdgeAddedEvents("b_a", "b", "a", true, false, [], map[], 0, 1);
    events, drawn := g.log, g.drawn;
  }

  /** `addNode(id, x, y)` with one registered node attribute: NodeAdded, the
      attribute from the first draw, then the position. */
  method PositionedNode() returns (events: seq<Event>)
    ensures events == [NodeAdded("n"),
                       NodeAttributeAdded("n", "w", Sample(Uniform(0.0, 1.0), Draw(7, 0))),
                       NodeAttributeAdded("n", "xy", Xy(1.0, 2.0))]
  {
    var counter := new GeneratorCounter();
    var g := new BaseGenerator(counter, d => true, 7, false, false);
    g.AddNodeAttributeUnit("w");
    ghost var order := g.AddNodeAt("n", 1.0, 2.0);
    ghost var reg := map["w" := Uniform(0.0, 1.0)];
    assert g.nodeAttributes == reg;
    EnumerationSize(order, reg.Keys);
    assert order == ["w"] by {
      assert |order| == 1 && order[0] in reg.Keys;
    }
    AttributeEventAt(NodeScope, "n", order, reg, 7, 0, 0);
    assert AttributeEvents(NodeScope, "n", order, reg, 7, 0)
        == [NodeAttributeAdded("n", "w", Sample(Uniform(0.0, 1.0), Draw(7, 0)))];
    events := g.log;
  }

  /** With mirroring on, `addNode("a")` puts "a" in the mirror, and `end()`
      empties the mirror without sending anything. */
  method MirroredNodeThenEnd() returns (before: MirrorGraph.Mirror, after: MirrorGraph.Mirror, events: seq<Event>)
    ensures before.nodes == {"a"} && before.edges == {}
    ensures after == MirrorGraph.Empty
    ensures events == [NodeAdded("a")]
  {
    var counter := new GeneratorCounter();
    var g := new BaseGenerator(counter, d => true, 0, false, false);
    g.SetUseInternalGraph(true);
    ghost var order := g.AddNode("a");
    EnumerationSize(order, g.nodeAttributes.Keys);
    assert order == [];
    assert g.log == NodeAddedEvents("a", false, [], map[], 0, 0);
    before := g.internalGraph.value;
    g.End();
    after := g.internalGraph.value;
    events := g.log;
  }

  /** With mirroring on, an edge added then removed leaves the mirror's edge
      set empty; EdgeAdded and EdgeRemoved are both sent. */
  method MirroredEdgeRemoved() returns (mirror: MirrorGraph.Mirror, events: seq<Event>)
    ensures mirror.edges == {} && mirror.nodes == {}
    ensures events == [EdgeAdded("e", "a", "b", false), EdgeRemoved("e")]
  {
    var counter := new GeneratorCounter();
    var g := new BaseGenerator(counter, d => true, 0, false, false);
    g.SetUseInternalGraph(true);
    ghost var order := g.AddEdge(Some("e"), "a", "b");
    EnumerationSize(order, g.edgeAttributes.Keys);
    assert order == [];
    assert g.log == EdgeAddedEvents("e", "a", "b", false, false, [], map[], 0, 0);
    assert g.internalGraph == Some(MirrorGraph.AddEdge(MirrorGraph.Empty, "e"));
    g.DelEdge("e");
    mirror := g.internalGraph.value;
    events := g.log;
  }

  /** `end()` leaves the random source alone, so restarting needs the seed
      again: after `end()` and `setRandomSeed` with the first seed, the same
      call sends the same events as the first run. */
  method RestartWithSeed() returns (first: seq<Event>, second: seq<Event>)
    ensures first == second
    ensures |first| == 2 && first[0] == EdgeAdded("a_b", "a", "b", false)
  {
    var counter := new GeneratorCounter();
    var g := new BaseGenerator(counter, d => true, 0, false, false);
    g.AddEdgeAttributeUnit("w");
    SeededEdge(g);
    first := g.log;
    g.End();
    SeededEdge(g);
    second := g.log[|first|..];
  }

  /** `setRandomSeed(5)` then `addEdge(null, "a", "b")` on an undirected
      generator with the single edge attribute "w" and no labels. */
  method SeededEdge(g: BaseGenerator)
    requires g.Valid() && !g.directed && !g.addEdgeLabels
    requires g.edgeAttributes == map["w" := Uniform(0.0, 1.0)]
    modifies g
    ensures g.Valid() && !g.directed && !g.addEdgeLabels && g.edgeAttributes == old(g.edgeAttributes)
    ensures g.log == old(g.log) + EdgeAddedEvents("a_b", "a", "b", false, false, ["w"], g.edgeAttributes, 5, 0)
  {
    g.SetRandomSeed(5);
    ghost var order := g.AddEdge(None, "a", "b");
    OnlyKey(order, "w", g.edgeAttributes);
    DefaultIdOfLiterals();
  }

  lemma DefaultIdOfLiterals()
    ensures EdgeIdOf(None, "a", "b") == "a_b" && EdgeIdOf(None, "b", "a") == "b_a"
  {
  }

  /** A registry with one key is visited in one order only. */
  lemma OnlyKey(order: seq<string>, name: string, reg: map<string, Factory>)
    requires reg.Keys == {name} && IsEnumeration(order, reg.Keys)
    ensures order == [name]
  {
    EnumerationSize(order, reg.Keys);
    assert order[0] in reg.Keys;
  }
}
