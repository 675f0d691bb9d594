/** The generator's internal mirror graph, reduced to what the generator
    itself does with it: node ids, edge ids and attribute values. */
module MirrorGraph {
  import opened Protocol

  datatype Mirror = Mirror(nodes: set<Id>, edges: set<Id>,
                           nodeAttributes: map<(Id, string), Value>,
                           edgeAttributes: map<(Id, string), Value>)

  /** A freshly allocated or cleared graph. */
  const Empty := Mirror({}, {}, map[], map[])

  /** Adding an id that is already present leaves the graph as it is (the
      mirror is not strict). */
  function AddNode(m: Mirror, id: Id): Mirror {
    m.(nodes := m.nodes + {id})
  }

  /** Removing a node drops its attributes; removing an absent id is a no-op. */
  function RemoveNode(m: Mirror, id: Id): Mirror {
    m.(nodes := m.nodes - {id},
       nodeAttributes := map key | key in m.nodeAttributes && key.0 != id :: m.nodeAttributes[key])
  }

  function AddEdge(m: Mirror, id: Id): Mirror {
    m.(edges := m.edges + {id})
  }

  function RemoveEdge(m: Mirror, id: Id): Mirror {
    m.(edges := m.edges - {id},
       edgeAttributes := map key | key in m.edgeAttributes && key.0 != id :: m.edgeAttributes[key])
  }

  function Attributes(m: Mirror, scope: Scope): map<(Id, string), Value> {
    match scope
    case NodeScope => m.nodeAttributes
    case EdgeScope => m.edgeAttributes
  }

  function SetAttribute(m: Mirror, scope: Scope, id: Id, name: string, v: Value): Mirror {
    match scope
    case NodeScope => m.(nodeAttributes := m.nodeAttributes[(id, name) := v])
    case EdgeScope => m.(edgeAttributes := m.edgeAttributes[(id, name) := v])
  }

  /** The mirror after the registry was applied to `id` in the order `names`,
      one `setAttribute` per factory application. */
  function SetSamples(m: Mirror, scope: Scope, id: Id, names: seq<string>, reg: map<string, Factory>,
                      seed: int, start: nat): Mirror
    requires Registered(names, reg)
  {
    if names == [] then m
    else
      var k := |names| - 1;
      SetAttribute(SetSamples(m, scope, id, names[..k], reg, seed, start),
                   scope, id, names[k], Sample(reg[names[k]], Draw(seed, start + k)))
  }

  lemma SetSamplesStep(m: Mirror, scope: Scope, id: Id, names: seq<string>, reg: map<string, Factory>,
                       seed: int, start: nat, k: nat)
    requires Registered(names, reg) && k < |names|
    ensures Registered(names[..k], reg) && Registered(names[..k + 1], reg)
    ensures SetSamples(m, scope, id, names[..k + 1], reg, seed, start)
         == SetAttribute(SetSamples(m, scope, id, names[..k], reg, seed, start),
                         scope, id, names[k], Sample(reg[names[k]], Draw(seed, start + k)))
  {
    assert names[..k + 1][..k] == names[..k];
  }

  /** Applying the registry touches only the attributes of `id` in `scope`:
      ids and the other scope are unchanged, no attribute is removed, and
      attributes other than the visited names of `id` keep their values. */
  lemma {:induction false} SetSamplesFrame(m: Mirror, scope: Scope, id: Id, names: seq<string>,
                                           reg: map<string, Factory>, seed: int, start: nat)
    requires Registered(names, reg)
    ensures var m' := SetSamples(m, scope, id, names, reg, seed, start);
      && m'.nodes == m.nodes && m'.edges == m.edges
      && Attributes(m', if scope == NodeScope then EdgeScope else NodeScope)
         == Attributes(m, if scope == NodeScope then EdgeScope else NodeScope)
      && (forall key :: key in Attributes(m, scope) ==> key in Attributes(m', scope))
      && (forall key :: key in Attributes(m', scope) && (key.0 != id || key.1 !in names) ==>
            key in Attributes(m, scope) && Attributes(m', scope)[key] == Attributes(m, scope)[key])
  {
    if names != [] {
      var n := |names| - 1;
      SetSamplesFrame(m, scope, id, names[..n], reg, seed, start);
    }
  }

  /** Every visited attribute of `id` holds its factory applied to its own
      draw: the k-th name visited gets the k-th draw after `start`. */
  lemma {:induction false} SetSamplesValues(m: Mirror, scope: Scope, id: Id, names: seq<string>,
                                            reg: map<string, Factory>, seed: int, start: nat)
    requires Registered(names, reg)
    requires forall i, j :: 0 <= i < j < |names| ==> names[i] != names[j]
    ensures var m' := SetSamples(m, scope, id, names, reg, seed, start);
      forall k :: 0 <= k < |names| ==>
        (id, names[k]) in Attributes(m', scope)
        && Attributes(m', scope)[(id, names[k])] == Sample(reg[names[k]], Draw(seed, start + k))
  {
    if names != [] {
      var n := |names| - 1;
      SetSamplesValues(m, scope, id, names[..n], reg, seed, start);
      forall k | 0 <= k < n ensures names[k] != names[n] && names[..n][k] == names[k] {
      }
    }
  }

  /** The mirror and the events agree: after the registry is applied, the
      attribute set on the mirror for each visited name is the value carried
      by the event sent for it. */
  lemma {:induction false} SetSamplesAgreeWithEvents(m: Mirror, scope: Scope, id: Id, names: seq<string>,
                                  reg: map<string, Factory>, seed: int, start: nat)
    requires Registered(names, reg)
    requires forall i, j :: 0 <= i < j < |names| ==> names[i] != names[j]
    ensures var m' := SetSamples(m, scope, id, names, reg, seed, start);
            var evs := AttributeEvents(scope, id, names, reg, seed, start);
      forall k :: 0 <= k < |names| ==>
        IsAttributeEvent(evs[k]) && evs[k].name == names[k]
        && (id, names[k]) in Attributes(m', scope) && Attributes(m', scope)[(id, names[k])] == evs[k].value
  {
    SetSamplesValues(m, scope, id, names, reg, seed, start);
    forall k | 0 <= k < |names| {
      AttributeEventAt(scope, id, names, reg, seed, start, k);
    }
  }

  /** `addNode(id)` keeps a mirror whose ids agree with the log in
      agreement: the log gains `id` as a live node, and so does the mirror. */
  lemma NodeAddedKeepsIds(log: seq<Event>, epoch: nat, m: Option<Mirror>, id: Id, labels: bool,
                          names: seq<string>, reg: map<string, Factory>, seed: int, start: nat)
    requires IsEnumeration(names, reg.Keys)
    requires epoch <= |log|
    requires m.Some? ==> m.value.nodes == Live(log[epoch..], Nodes) && m.value.edges == Live(log[epoch..], Edges)
    ensures var log' := log + NodeAddedEvents(id, labels, names, reg, seed, start);
            var m' := if m.None? then None else Some(SetSamples(AddNode(m.value, id), NodeScope, id, names, reg, seed, start));
      && epoch <= |log'|
      && (m'.Some? ==> m'.value.nodes == Live(log'[epoch..], Nodes) && m'.value.edges == Live(log'[epoch..], Edges))
  {
    var sent := NodeAddedEvents(id, labels, names, reg, seed, start);
    assert (log + sent)[epoch..] == log[epoch..] + sent;
    NodeAddedEventsLive(log[epoch..], id, labels, names, reg, seed, start);
    if m.Some? {
      SetSamplesFrame(AddNode(m.value, id), NodeScope, id, names, reg, seed, start);
    }
  }

  /** Likewise for `addEdge`, with `id` the edge id after orientation. */
  lemma EdgeAddedKeepsIds(log: seq<Event>, epoch: nat, m: Option<Mirror>, id: Id, from: Id, to: Id,
                          directed: bool, labels: bool,
                          names: seq<string>, reg: map<string, Factory>, seed: int, start: nat)
    requires IsEnumeration(names, reg.Keys)
    requires epoch <= |log|
    requires m.Some? ==> m.value.nodes == Live(log[epoch..], Nodes) && m.value.edges == Live(log[epoch..], Edges)
    ensures var log' := log + EdgeAddedEvents(id, from, to, directed, labels, names, reg, seed, start);
            var m' := if m.None? then None else Some(SetSamples(AddEdge(m.value, id), EdgeScope, id, names, reg, seed, start));
      && epoch <= |log'|
      && (m'.Some? ==> m'.value.nodes == Live(log'[epoch..], Nodes) && m'.value.edges == Live(log'[epoch..], Edges))
  {
    var sent := EdgeAddedEvents(id, from, to, directed, labels, names, reg, seed, start);
    assert (log + sent)[epoch..] == log[epoch..] + sent;
    EdgeAddedEventsLive(log[epoch..], id, from, to, directed, labels, names, reg, seed, start);
    if m.Some? {
      SetSamplesFrame(AddEdge(m.value, id), EdgeScope, id, names, reg, seed, start);
    }
  }
}
