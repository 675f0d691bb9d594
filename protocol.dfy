/** The event protocol of a graph generator: the events it sends to its sink,
    the attribute values produced from the shared random source, and the
    ids an event log leaves alive (adds minus removes). */
module Protocol {

  type Id = string

  datatype Option<T> = None | Some(value: T)

  /** One draw from the generator's random source: the seed in force and the
      position of the draw in the stream started by that seed. */
  datatype Draw = Draw(seed: int, index: nat)

  /** An attribute factory. `Uniform(min, max)` is the built-in
      `min + (max - min) * nextDouble()`; `Custom(tag)` stands for a factory
      function supplied by the caller, known only by its tag. */
  datatype Factory = Uniform(min: real, max: real) | Custom(tag: nat)

  /** Attribute values: a label (the entity's own id), a plane position, or
      the value a factory computed from one draw. */
  datatype Value = Text(s: string) | Xy(x: real, y: real) | Sample(factory: Factory, draw: Draw)

  datatype Scope = NodeScope | EdgeScope

  /** The sink's callbacks, one constructor each. */
  datatype Event =
    | NodeAdded(node: Id)
    | NodeRemoved(node: Id)
    | EdgeAdded(edge: Id, from: Id, to: Id, directed: bool)
    | EdgeRemoved(edge: Id)
    | NodeAttributeAdded(node: Id, name: string, value: Value)
    | EdgeAttributeAdded(edge: Id, name: string, value: Value)

  predicate IsAttributeEvent(e: Event) {
    e.NodeAttributeAdded? || e.EdgeAttributeAdded?
  }

  function AttributeEvent(scope: Scope, id: Id, name: string, v: Value): (e: Event)
    ensures IsAttributeEvent(e) && e.name == name && e.value == v
  {
    match scope
    case NodeScope => NodeAttributeAdded(id, name, v)
    case EdgeScope => EdgeAttributeAdded(id, name, v)
  }

  /** `names` lists every key of `keys` exactly once, in some order: one
      possible iteration order of a hash map with those keys. */
  predicate IsEnumeration(names: seq<string>, keys: set<string>) {
    && (forall k :: 0 <= k < |names| ==> names[k] in keys)
    && (forall n :: n in keys ==> n in names)
    && (forall i, j :: 0 <= i < j < |names| ==> names[i] != names[j])
  }

  predicate Registered(names: seq<string>, reg: map<string, Factory>) {
    forall k :: 0 <= k < |names| ==> names[k] in reg
  }

  /** The attribute events of one new node or edge when the registry is
      visited in the order `names`: the k-th visited factory is applied to the
      k-th draw after `start`. */
  function AttributeEvents(scope: Scope, id: Id, names: seq<string>, reg: map<string, Factory>,
                           seed: int, start: nat): (r: seq<Event>)
    requires Registered(names, reg)
    ensures |r| == |names|
  {
    if names == [] then []
    else
      var k := |names| - 1;
      AttributeEvents(scope, id, names[..k], reg, seed, start)
        + [AttributeEvent(scope, id, names[k], Sample(reg[names[k]], Draw(seed, start + k)))]
  }

  function LabelEvents(scope: Scope, on: bool, id: Id): seq<Event> {
    if on then [AttributeEvent(scope, id, "label", Text(id))] else []
  }

  /** Everything `addNode(id)` sends. */
  function NodeAddedEvents(id: Id, labels: bool, names: seq<string>, reg: map<string, Factory>,
                           seed: int, start: nat): seq<Event>
    requires Registered(names, reg)
  {
    [NodeAdded(id)] + LabelEvents(NodeScope, labels, id)
      + AttributeEvents(NodeScope, id, names, reg, seed, start)
  }

  /** Everything `addEdge` sends once the endpoints and the id are settled. */
  function EdgeAddedEvents(id: Id, from: Id, to: Id, directed: bool, labels: bool,
                           names: seq<string>, reg: map<string, Factory>,
                           seed: int, start: nat): seq<Event>
    requires Registered(names, reg)
  {
    [EdgeAdded(id, from, to, directed)] + LabelEvents(EdgeScope, labels, id)
      + AttributeEvents(EdgeScope, id, names, reg, seed, start)
  }

  // ---------------------------------------------------------------------
  // Ids left alive by an event log

  datatype Kind = Nodes | Edges

  predicate Adds(e: Event, kind: Kind, x: Id) {
    match e
    case NodeAdded(n) => kind == Nodes && n == x
    case EdgeAdded(id, _, _, _) => kind == Edges && id == x
    case _ => false
  }

  predicate Removes(e: Event, kind: Kind, x: Id) {
    match e
    case NodeRemoved(n) => kind == Nodes && n == x
    case EdgeRemoved(id) => kind == Edges && id == x
    case _ => false
  }

  function Step(live: set<Id>, e: Event, kind: Kind): set<Id> {
    match e
    case NodeAdded(n) => if kind == Nodes then live + {n} else live
    case NodeRemoved(n) => if kind == Nodes then live - {n} else live
    case EdgeAdded(id, _, _, _) => if kind == Edges then live + {id} else live
    case EdgeRemoved(id) => if kind == Edges then live - {id} else live
    case _ => live
  }

  /** The node (or edge) ids a log leaves alive, replaying it event by event. */
  function Live(log: seq<Event>, kind: Kind): set<Id> {
    if log == [] then {} else Step(Live(log[..|log| - 1], kind), log[|log| - 1], kind)
  }

  // ---------------------------------------------------------------------
  // Lemmas

  /** An enumeration of a key set has exactly one entry per key. */
  lemma {:induction false} EnumerationSize(names: seq<string>, keys: set<string>)
    requires IsEnumeration(names, keys)
    ensures |names| == |keys|
  {
    if names != [] {
      var k := |names| - 1;
      var last := names[k];
      assert IsEnumeration(names[..k], keys - {last}) by {
        forall n | n in keys - {last} ensures n in names[..k] {
          var i :| 0 <= i < |names| && names[i] == n;
          assert i != k;
        }
      }
      EnumerationSize(names[..k], keys - {last});
    }
  }

  lemma AppendAssociative(a: seq<Event>, b: seq<Event>, c: seq<Event>)
    ensures a + b + c == a + (b + c)
  {
  }

  /** One more visited factory adds one event at the end. */
  lemma AttributeEventsStep(scope: Scope, id: Id, names: seq<string>, reg: map<string, Factory>,
                            seed: int, start: nat, k: nat)
    requires Registered(names, reg) && k < |names|
    ensures Registered(names[..k], reg) && Registered(names[..k + 1], reg)
    ensures AttributeEvents(scope, id, names[..k + 1], reg, seed, start)
         == AttributeEvents(scope, id, names[..k], reg, seed, start)
            + [AttributeEvent(scope, id, names[k], Sample(reg[names[k]], Draw(seed, start + k)))]
  {
    assert names[..k + 1][..k] == names[..k];
  }

  lemma {:induction false} AttributeEventAt(scope: Scope, id: Id, names: seq<string>,
                                            reg: map<string, Factory>, seed: int, start: nat, k: nat)
    requires Registered(names, reg) && k < |names|
    ensures AttributeEvents(scope, id, names, reg, seed, start)[k]
         == AttributeEvent(scope, id, names[k], Sample(reg[names[k]], Draw(seed, start + k)))
  {
    var n := |names| - 1;
    if k < n {
      AttributeEventAt(scope, id, names[..n], reg, seed, start, k);
    }
  }

  /** `t` holds exactly one attribute event of `scope` for `id` per
      registered attribute, the k-th one carrying its factory applied to the
      k-th draw after `start`. */
  predicate OneEventPerAttribute(t: seq<Event>, scope: Scope, id: Id, reg: map<string, Factory>,
                                 seed: int, start: nat)
  {
    && |t| == |reg|
    && (forall k :: 0 <= k < |t| ==>
          IsAttributeEvent(t[k]) && t[k].name in reg
          && t[k] == AttributeEvent(scope, id, t[k].name, Sample(reg[t[k].name], Draw(seed, start + k))))
    && (forall name :: name in reg ==> exists k :: 0 <= k < |t| && IsAttributeEvent(t[k]) && t[k].name == name)
    && (forall i, j :: 0 <= i < j < |t| && IsAttributeEvent(t[i]) && IsAttributeEvent(t[j]) ==>
          t[i].name != t[j].name)
  }

  /** Applying a registry sends exactly one event per registered attribute,
      naming that attribute, and the k-th event carries the value of its
      factory applied to the k-th draw: one draw per factory application. */
  lemma {:induction false} AttributesExactlyOnce(scope: Scope, id: Id, names: seq<string>, reg: map<string, Factory>,
                              seed: int, start: nat)
    requires IsEnumeration(names, reg.Keys)
    ensures OneEventPerAttribute(AttributeEvents(scope, id, names, reg, seed, start), scope, id, reg, seed, start)
  {
    var r := AttributeEvents(scope, id, names, reg, seed, start);
    EnumerationSize(names, reg.Keys);
    forall k | 0 <= k < |r|
      ensures IsAttributeEvent(r[k]) && r[k].name == names[k]
      ensures r[k] == AttributeEvent(scope, id, names[k], Sample(reg[names[k]], Draw(seed, start + k)))
    {
      AttributeEventAt(scope, id, names, reg, seed, start, k);
    }
    forall name | name in reg ensures exists k :: 0 <= k < |r| && IsAttributeEvent(r[k]) && r[k].name == name {
      var k :| 0 <= k < |names| && names[k] == name;
      assert r[k].name == name;
    }
  }

  /** `addNode(id)` sends NodeAdded(id), then the label iff labels are on,
      then one attribute event per registered node attribute. */
  lemma NodeAddedEventsLayout(id: Id, labels: bool, names: seq<string>, reg: map<string, Factory>,
                              seed: int, start: nat)
    requires IsEnumeration(names, reg.Keys)
    ensures var r := NodeAddedEvents(id, labels, names, reg, seed, start);
            var a := if labels then 1 else 0;
      && |r| == 1 + a + |reg|
      && r[0] == NodeAdded(id)
      && (labels ==> r[1] == NodeAttributeAdded(id, "label", Text(id)))
      && OneEventPerAttribute(r[1 + a..], NodeScope, id, reg, seed, start)
  {
    var pre := [NodeAdded(id)] + LabelEvents(NodeScope, labels, id);
    AttributesExactlyOnce(NodeScope, id, names, reg, seed, start);
    assert (pre + AttributeEvents(NodeScope, id, names, reg, seed, start))[|pre|..]
        == AttributeEvents(NodeScope, id, names, reg, seed, start);
  }

  /** `addEdge` sends EdgeAdded carrying the current `directed` flag, then the
      label iff edge labels are on, then one attribute event per registered
      edge attribute. */
  lemma EdgeAddedEventsLayout(id: Id, from: Id, to: Id, directed: bool, labels: bool,
                              names: seq<string>, reg: map<string, Factory>, seed: int, start: nat)
    requires IsEnumeration(names, reg.Keys)
    ensures var r := EdgeAddedEvents(id, from, to, directed, labels, names, reg, seed, start);
            var a := if labels then 1 else 0;
      && |r| == 1 + a + |reg|
      && r[0] == EdgeAdded(id, from, to, directed)
      && (labels ==> r[1] == EdgeAttributeAdded(id, "label", Text(id)))
      && OneEventPerAttribute(r[1 + a..], EdgeScope, id, reg, seed, start)
  {
    var pre := [EdgeAdded(id, from, to, directed)] + LabelEvents(EdgeScope, labels, id);
    AttributesExactlyOnce(EdgeScope, id, names, reg, seed, start);
    assert (pre + AttributeEvents(EdgeScope, id, names, reg, seed, start))[|pre|..]
        == AttributeEvents(EdgeScope, id, names, reg, seed, start);
  }

  /** Replaying a log agrees with "adds minus removes": an id is alive iff
      some event added it and no later event removed it. */
  lemma {:induction false} LiveIsAddsMinusRemoves(log: seq<Event>, kind: Kind, x: Id)
    ensures x in Live(log, kind) <==>
      exists i :: 0 <= i < |log| && Adds(log[i], kind, x)
                  && forall j :: i < j < |log| ==> !Removes(log[j], kind, x)
  {
    if log != [] {
      var n := |log| - 1;
      var init, e := log[..n], log[n];
      LiveIsAddsMinusRemoves(init, kind, x);
      if Adds(e, kind, x) {
        assert x in Live(log, kind);
        assert Adds(log[n], kind, x);
      } else if Removes(e, kind, x) {
        assert x !in Live(log, kind);
        forall i | 0 <= i < |log| && Adds(log[i], kind, x)
          ensures exists j :: i < j < |log| && Removes(log[j], kind, x)
        {
          assert i < n;
        }
      } else {
        assert x in Live(log, kind) <==> x in Live(init, kind);
        if x in Live(init, kind) {
          var i :| 0 <= i < n && Adds(init[i], kind, x)
                   && forall j :: i < j < n ==> !Removes(init[j], kind, x);
          assert Adds(log[i], kind, x);
        } else {
          forall i | 0 <= i < |log| && Adds(log[i], kind, x)
            ensures exists j :: i < j < |log| && Removes(log[j], kind, x)
          {
            assert i < n && Adds(init[i], kind, x);
            var j :| i < j < n && Removes(init[j], kind, x);
            assert Removes(log[j], kind, x);
          }
        }
      }
    }
  }

  /** Attribute events never change which nodes or edges are alive. */
  lemma {:induction false} LiveIgnoresAttributes(log: seq<Event>, more: seq<Event>, kind: Kind)
    requires forall k :: 0 <= k < |more| ==> IsAttributeEvent(more[k])
    ensures Live(log + more, kind) == Live(log, kind)
  {
    if more != [] {
      var n := |more| - 1;
      assert (log + more)[..|log + more| - 1] == log + more[..n];
      assert (log + more)[|log + more| - 1] == more[n];
      LiveIgnoresAttributes(log, more[..n], kind);
    } else {
      assert log + more == log;
    }
  }

  lemma {:induction false} AttributeEventsAreAttributes(scope: Scope, id: Id, names: seq<string>, reg: map<string, Factory>,
                                     seed: int, start: nat)
    requires Registered(names, reg)
    ensures forall k :: 0 <= k < |names| ==>
      IsAttributeEvent(AttributeEvents(scope, id, names, reg, seed, start)[k])
  {
    forall k | 0 <= k < |names|
      ensures IsAttributeEvent(AttributeEvents(scope, id, names, reg, seed, start)[k])
    {
      AttributeEventAt(scope, id, names, reg, seed, start, k);
    }
  }

  /** After `addNode(id)` the log has `id` alive as a node and the same edges. */
  lemma NodeAddedEventsLive(log: seq<Event>, id: Id, labels: bool, names: seq<string>,
                            reg: map<string, Factory>, seed: int, start: nat)
    requires Registered(names, reg)
    ensures var after := log + NodeAddedEvents(id, labels, names, reg, seed, start);
      Live(after, Nodes) == Live(log, Nodes) + {id} && Live(after, Edges) == Live(log, Edges)
  {
    var more := LabelEvents(NodeScope, labels, id) + AttributeEvents(NodeScope, id, names, reg, seed, start);
    AttributeEventsAreAttributes(NodeScope, id, names, reg, seed, start);
    assert log + NodeAddedEvents(id, labels, names, reg, seed, start) == (log + [NodeAdded(id)]) + more;
    assert (log + [NodeAdded(id)])[..|log|] == log;
    LiveIgnoresAttributes(log + [NodeAdded(id)], more, Nodes);
    LiveIgnoresAttributes(log + [NodeAdded(id)], more, Edges);
  }

  /** After `addEdge` the log has the edge id alive and the same nodes. */
  lemma EdgeAddedEventsLive(log: seq<Event>, id: Id, from: Id, to: Id, directed: bool, labels: bool,
                            names: seq<string>, reg: map<string, Factory>, seed: int, start: nat)
    requires Registered(names, reg)
    ensures var after := log + EdgeAddedEvents(id, from, to, directed, labels, names, reg, seed, start);
      Live(after, Edges) == Live(log, Edges) + {id} && Live(after, Nodes) == Live(log, Nodes)
  {
    var first := EdgeAdded(id, from, to, directed);
    var more := LabelEvents(EdgeScope, labels, id) + AttributeEvents(EdgeScope, id, names, reg, seed, start);
    AttributeEventsAreAttributes(EdgeScope, id, names, reg, seed, start);
    assert log + EdgeAddedEvents(id, from, to, directed, labels, names, reg, seed, start) == (log + [first]) + more;
    assert (log + [first])[..|log|] == log;
    LiveIgnoresAttributes(log + [first], more, Nodes);
    LiveIgnoresAttributes(log + [first], more, Edges);
  }
}
