/** The second promise of the bridge: repeated round trips settle. Exactly when the first one
    already has, and that the second one always has. */
module BridgeFixedPoint {
  import opened Optional
  import opened PyValues
  import opened NodeSpecs
  import opened PySource
  import opened Bridge
  import opened BridgeData
  import opened BridgeParser
  import opened BridgeRoundTrip
  import opened BridgeNormalForm
  import opened Text
  import Identifiers

  /** Defaults are Python values too. */
  ghost predicate ProperDefaults(specs: Registry) {
    forall i, k :: 0 <= i < |specs| && 0 <= k < |specs[i].properties| ==> Proper(specs[i].properties[k].default)
  }

  lemma NormalProper(prop: PropertySpec, data: Fields)
    requires ProperFields(data) && Proper(prop.default)
    ensures Normal(prop, data).Some? ==> Proper(Normal(prop, data).value)
  {
    var found := Lookup(data, prop.name);
    if found.Some? {
      var j :| 0 <= j < |data| && data[j] == Field(prop.name, found.value);
      KnownValueProper(prop, found.value);
    }
  }

  lemma NormalDataProper(spec: NodeSpec, data: Fields)
    requires ProperFields(data) && DistinctProperties(spec.properties)
    requires forall k :: 0 <= k < |spec.properties| ==> Proper(spec.properties[k].default)
    ensures ProperFields(NormalData(spec, data))
  {
    var value := (p: PropertySpec) => Normal(p, data);
    CollectUnique(spec.properties, value);
    forall i | 0 <= i < |NormalData(spec, data)| ensures Proper(NormalData(spec, data)[i].value) {
      CollectNames(spec.properties, value, i);
      var k :| 0 <= k < |spec.properties| && value(spec.properties[k]) == Some(NormalData(spec, data)[i].value);
      NormalProper(spec.properties[k], data);
    }
  }

  lemma KnownEdgeDataIdempotent(data: Fields)
    ensures KnownEdgeData(KnownEdgeData(data)) == KnownEdgeData(data)
  {
    if data == [] {
    } else {
      KnownEdgeDataIdempotent(data[1..]);
      if data[0].name in EDGE_FIELDS {
        assert KnownEdgeData(data)[1..] == KnownEdgeData(data[1..]);
      } else {
        assert KnownEdgeData(data) == KnownEdgeData(data[1..]);
      }
    }
  }

  /** In a normal form, node `k` is found under its new id. */
  lemma {:induction false} NumberedNodeFound(nodes: seq<GraphNode>, k: nat)
    requires forall i :: 0 <= i < |nodes| ==> nodes[i].id == Decimal(i + 1)
    requires k < |nodes|
    ensures LastWithId(nodes, Decimal(k + 1)) == Some(k)
  {
    var found := LastWithId(nodes, Decimal(k + 1));
    assert nodes[k].id == Decimal(k + 1);
    DecimalInjective(found.value + 1, k + 1);
  }

  /** What any reading back of a graph looks like: normal nodes, and edges with declared fields
      between listed nodes, the stored ones or others. */
  ghost predicate IsTidy(specs: Registry, graph: Graph, r: Graph)
    requires KnownTypes(specs, graph.nodes)
  {
    && |r.nodes| == |graph.nodes|
    && |r.edges| == |graph.edges|
    && (forall i :: 0 <= i < |r.nodes| ==> r.nodes[i] == NormalNode(specs, graph.nodes[i], i))
    && forall i :: 0 <= i < |r.edges| ==> JoinsNodes(|r.nodes|, graph.edges[i], r.edges[i])
  }

  ghost predicate JoinsNodes(count: nat, edge: GraphEdge, r: GraphEdge) {
    exists s: nat, t: nat :: s < count && t < count && r == EdgeBetween(s, t, KnownEdgeData(DataOf(edge.data)))
  }

  lemma NormalFormIsTidy(specs: Registry, graph: Graph, r: Graph)
    requires KnownTypes(specs, graph.nodes) && AllResolved(graph) && IsNormalForm(specs, graph, r)
    ensures IsTidy(specs, graph, r)
  {
    forall i | 0 <= i < |r.edges| ensures JoinsNodes(|r.nodes|, graph.edges[i], r.edges[i]) {
      assert r.edges[i] == NormalEdge(graph, graph.edges[i]);
    }
  }

  lemma ReadBackIsTidy(specs: Registry, graph: Graph, vars: seq<string>, r: Graph)
    requires |vars| == |graph.nodes| && KnownTypes(specs, graph.nodes) && AllResolved(graph)
    requires IsReadBack(specs, graph, vars, r)
    ensures IsTidy(specs, graph, r)
  {
    forall i | 0 <= i < |r.edges| ensures JoinsNodes(|r.nodes|, graph.edges[i], r.edges[i]) {
      assert r.edges[i] == ReadEdge(graph, vars, graph.edges[i]);
    }
  }

  lemma {:induction false} TidyEdgeAgain(edge: GraphEdge, r: Graph, i: nat)
    requires ProperFields(DataOf(edge.data)) && Labelled(edge) && i < |r.edges|
    requires forall k :: 0 <= k < |r.nodes| ==> r.nodes[k].id == Decimal(k + 1)
    requires JoinsNodes(|r.nodes|, edge, r.edges[i])
    ensures Resolved(r.nodes, r.edges[i]) && NormalEdge(r, r.edges[i]) == r.edges[i]
    ensures ProperFields(DataOf(r.edges[i].data)) && Labelled(r.edges[i])
  {
    var s: nat, t: nat :| s < |r.nodes| && t < |r.nodes| &&
      r.edges[i] == EdgeBetween(s, t, KnownEdgeData(DataOf(edge.data)));
    NumberedNodeFound(r.nodes, s);
    NumberedNodeFound(r.nodes, t);
    KnownEdgeDataFacts(DataOf(edge.data), "label");
    KnownEdgeDataFacts(DataOf(edge.data), "condition");
    KnownEdgeDataIdempotent(DataOf(edge.data));
  }

  lemma NormalNodeAgain(specs: Registry, node: GraphNode, i: nat)
    requires GoodRegistry(specs) && ProperDefaults(specs) && IsType(specs, node.typ)
    requires ProperFields(DataOf(node.data)) && Survives(FindSpec(specs, node.typ).value, DataOf(node.data))
    ensures var r := NormalNode(specs, node, i);
            && NormalNode(specs, r, i) == r
            && ProperFields(DataOf(r.data))
            && Survives(FindSpec(specs, r.typ).value, DataOf(r.data))
  {
    var spec := FindSpec(specs, node.typ).value;
    var k :| 0 <= k < |specs| && specs[k] == spec;
    NormalDataIsNormal(spec, DataOf(node.data));
    NormalDataProper(spec, DataOf(node.data));
  }

  /** Whatever was read back is printable, passes `RoundTrips`, and is its own normal form, also
      when its edges have moved. */
  lemma {:induction false} TidyIsNormal(specs: Registry, graph: Graph, r: Graph)
    requires Printable(specs, graph) && ProperDefaults(specs) && RoundTrips(specs, graph)
    requires IsTidy(specs, graph, r)
    ensures Printable(specs, r) && RoundTrips(specs, r) && IsNormalForm(specs, r, r)
  {
    forall i | 0 <= i < |r.nodes|
      ensures IsType(specs, r.nodes[i].typ) && NormalNode(specs, r.nodes[i], i) == r.nodes[i]
      ensures r.nodes[i].id == Decimal(i + 1) && ProperFields(DataOf(r.nodes[i].data))
      ensures Survives(FindSpec(specs, r.nodes[i].typ).value, DataOf(r.nodes[i].data))
    {
      NormalNodeAgain(specs, graph.nodes[i], i);
    }
    forall i | 0 <= i < |r.edges|
      ensures Resolved(r.nodes, r.edges[i]) && NormalEdge(r, r.edges[i]) == r.edges[i]
      ensures ProperFields(DataOf(r.edges[i].data)) && Labelled(r.edges[i])
    {
      TidyEdgeAgain(graph.edges[i], r, i);
    }
  }

  /** In particular a normal form is its own normal form. */
  lemma {:induction false} NormalFormIsNormal(specs: Registry, graph: Graph, r: Graph)
    requires Printable(specs, graph) && ProperDefaults(specs) && RoundTrips(specs, graph)
    requires IsNormalForm(specs, graph, r)
    ensures Printable(specs, r) && RoundTrips(specs, r) && IsNormalForm(specs, r, r)
  {
    NormalFormIsTidy(specs, graph, r);
    TidyIsNormal(specs, graph, r);
  }

  lemma NormalFormUnique(specs: Registry, graph: Graph, a: Graph, b: Graph)
    requires KnownTypes(specs, graph.nodes) && AllResolved(graph)
    requires IsNormalForm(specs, graph, a) && IsNormalForm(specs, graph, b)
    ensures a == b
  {
    assert a.nodes == b.nodes && a.edges == b.edges;
  }

  // -------------------------------------------------------------- repeated trips

  /** Every trip yields a graph that is its own normal form. */
  lemma {:induction false} TripIsNormal(u: Identifiers.Unicode, nfkc: string -> string, show: Value -> string,
                                        specs: Registry, graph: Graph, name: string)
    requires Printable(specs, graph) && ProperDefaults(specs) && RoundTrips(specs, graph)
    ensures var r := Trip(u, nfkc, show, specs, graph, name);
            && r.Parsed? && r.name == name
            && IsReadBack(specs, graph, ReadVariables(u, nfkc, show, graph.nodes), r.graph)
            && Printable(specs, r.graph) && RoundTrips(specs, r.graph) && IsNormalForm(specs, r.graph, r.graph)
  {
    var vars := ReadVariables(u, nfkc, show, graph.nodes);
    PrintThenParse(specs, graph, name, vars);
    var r := Trip(u, nfkc, show, specs, graph, name).graph;
    ReadBackIsTidy(specs, graph, vars, r);
    TidyIsNormal(specs, graph, r);
  }

  /** A graph that is its own normal form comes back unchanged if and only if no edge
      endpoint's variable, as Python reads it, is bound again by a later node. */
  lemma {:induction false} NormalTripIff(u: Identifiers.Unicode, nfkc: string -> string, show: Value -> string,
                                         specs: Registry, graph: Graph, name: string)
    requires Printable(specs, graph) && RoundTrips(specs, graph) && IsNormalForm(specs, graph, graph)
    ensures Trip(u, nfkc, show, specs, graph, name) == Parsed(graph, name) <==>
            EndpointsUnshadowed(graph, ReadVariables(u, nfkc, show, graph.nodes))
  {
    RoundTrip(u, nfkc, show, specs, graph, name);
    var r := Trip(u, nfkc, show, specs, graph, name).graph;
    if IsNormalForm(specs, graph, r) {
      NormalFormUnique(specs, graph, graph, r);
    }
  }

  /** Fixed point: for every printable graph that passes `RoundTrips`, whatever its nodes are
      called, printing and parsing the result of the first trip again returns the very same
      graph if and only if no edge endpoint's variable in that result is bound again. */
  lemma {:induction false} RoundTripTwice(u: Identifiers.Unicode, nfkc: string -> string, show: Value -> string,
                                          specs: Registry, graph: Graph, name: string)
    requires Printable(specs, graph) && ProperDefaults(specs) && RoundTrips(specs, graph)
    ensures var first := Trip(u, nfkc, show, specs, graph, name);
            && first.Parsed? && Printable(specs, first.graph)
            && (Trip(u, nfkc, show, specs, first.graph, name) == Parsed(first.graph, name) <==>
                EndpointsUnshadowed(first.graph, ReadVariables(u, nfkc, show, first.graph.nodes)))
  {
    TripIsNormal(u, nfkc, show, specs, graph, name);
    NormalTripIff(u, nfkc, show, specs, Trip(u, nfkc, show, specs, graph, name).graph, name);
  }

  /** The last node that binds a variable is not shadowed. */
  lemma {:induction false} LastBindingUnshadowed(nodes: seq<GraphNode>, vars: seq<string>, v: string)
    requires |vars| == |nodes| && v in vars
    requires forall k :: 0 <= k < |nodes| ==> nodes[k].id == Decimal(k + 1)
    ensures LastWithId(nodes, Decimal(LastBinding(vars, v) + 1)).Some?
    ensures Unshadowed(nodes, vars, Decimal(LastBinding(vars, v) + 1))
  {
    NumberedNodeFound(nodes, LastBinding(vars, v));
  }

  lemma {:induction false} ReadEdgeUnshadowed(graph: Graph, vars: seq<string>, edge: GraphEdge, nodes: seq<GraphNode>)
    requires |vars| == |graph.nodes| == |nodes| && Resolved(graph.nodes, edge)
    requires forall k :: 0 <= k < |nodes| ==> nodes[k].id == Decimal(k + 1)
    ensures var r := ReadEdge(graph, vars, edge);
            Resolved(nodes, r) && Unshadowed(nodes, vars, r.source) && Unshadowed(nodes, vars, r.target)
  {
    LastBindingUnshadowed(nodes, vars, vars[LastWithId(graph.nodes, edge.source).value]);
    LastBindingUnshadowed(nodes, vars, vars[LastWithId(graph.nodes, edge.target).value]);
  }

  /** A graph read back under some variables has no endpoint that they bind again. */
  lemma {:induction false} ReadBackIsUnshadowed(specs: Registry, graph: Graph, vars: seq<string>, r: Graph)
    requires |vars| == |graph.nodes| && KnownTypes(specs, graph.nodes) && AllResolved(graph)
    requires IsReadBack(specs, graph, vars, r) && AllResolved(r)
    ensures EndpointsUnshadowed(r, vars)
  {
    forall i | 0 <= i < |r.edges|
      ensures Unshadowed(r.nodes, vars, r.edges[i].source) && Unshadowed(r.nodes, vars, r.edges[i].target)
    {
      ReadEdgeUnshadowed(graph, vars, graph.edges[i], r.nodes);
    }
  }

  /** A trip of a graph that is its own normal form keeps the nodes, so their variables. */
  lemma {:induction false} ReadBackKeepsNodes(specs: Registry, graph: Graph, vars: seq<string>, r: Graph)
    requires |vars| == |graph.nodes| && KnownTypes(specs, graph.nodes) && AllResolved(graph)
    requires IsNormalForm(specs, graph, graph) && IsReadBack(specs, graph, vars, r)
    ensures r.nodes == graph.nodes
  {}

  lemma {:induction false} SettlesFrom(u: Identifiers.Unicode, nfkc: string -> string, show: Value -> string,
                                       specs: Registry, graph: Graph, r: Graph)
    requires KnownTypes(specs, graph.nodes) && AllResolved(graph) && AllResolved(r)
    requires IsNormalForm(specs, graph, graph)
    requires IsReadBack(specs, graph, ReadVariables(u, nfkc, show, graph.nodes), r)
    ensures EndpointsUnshadowed(r, ReadVariables(u, nfkc, show, r.nodes))
  {
    ReadBackKeepsNodes(specs, graph, ReadVariables(u, nfkc, show, graph.nodes), r);
    ReadBackIsUnshadowed(specs, graph, ReadVariables(u, nfkc, show, graph.nodes), r);
  }

  lemma {:induction false} NormalTripSettles(u: Identifiers.Unicode, nfkc: string -> string, show: Value -> string,
                                             specs: Registry, graph: Graph, name: string)
    requires Printable(specs, graph) && ProperDefaults(specs) && RoundTrips(specs, graph)
    requires IsNormalForm(specs, graph, graph)
    ensures var r := Trip(u, nfkc, show, specs, graph, name);
            && r.Parsed? && Printable(specs, r.graph)
            && Trip(u, nfkc, show, specs, r.graph, name) == Parsed(r.graph, name)
  {
    TripIsNormal(u, nfkc, show, specs, graph, name);
    var r := Trip(u, nfkc, show, specs, graph, name).graph;
    SettlesFrom(u, nfkc, show, specs, graph, r);
    NormalTripIff(u, nfkc, show, specs, r, name);
  }

  /** Round trips settle: for every such graph, in any alphabet, the second trip's result comes
      back unchanged from every later one. */
  lemma {:induction false} RoundTripsSettle(u: Identifiers.Unicode, nfkc: string -> string, show: Value -> string,
                                            specs: Registry, graph: Graph, name: string)
    requires Printable(specs, graph) && ProperDefaults(specs) && RoundTrips(specs, graph)
    ensures var first := Trip(u, nfkc, show, specs, graph, name);
            && first.Parsed? && Printable(specs, first.graph)
            && var second := Trip(u, nfkc, show, specs, first.graph, name);
               && second.Parsed? && Printable(specs, second.graph)
               && Trip(u, nfkc, show, specs, second.graph, name) == Parsed(second.graph, name)
  {
    TripIsNormal(u, nfkc, show, specs, graph, name);
    NormalTripSettles(u, nfkc, show, specs, Trip(u, nfkc, show, specs, graph, name).graph, name);
  }

  /** The names that defaults leave are ASCII too. */
  ghost predicate AsciiAfterDefaults(specs: Registry, show: Value -> string, nodes: seq<GraphNode>)
    requires KnownTypes(specs, nodes)
  {
    forall i :: 0 <= i < |nodes| ==> Ascii(DisplayName(show, NormalNode(specs, nodes[i], i)))
  }

  lemma {:induction false} NormalFormIsUnshadowed(u: Identifiers.Unicode, nfkc: string -> string, show: Value -> string,
                                                  specs: Registry, graph: Graph, r: Graph)
    requires KnownTypes(specs, graph.nodes) && AllResolved(graph) && IsNormalForm(specs, graph, r) && AllResolved(r)
    requires KeepsAscii(nfkc) && AsciiAfterDefaults(specs, show, graph.nodes)
    ensures EndpointsUnshadowed(r, ReadVariables(u, nfkc, show, r.nodes))
  {
    assert AsciiNames(show, r.nodes);
    AsciiIsUnshadowed(u, nfkc, show, r);
  }

  /** With names that are ASCII before and after defaults are filled in, one trip is enough. */
  lemma {:induction false} RoundTripTwiceAscii(u: Identifiers.Unicode, nfkc: string -> string, show: Value -> string,
                                               specs: Registry, graph: Graph, name: string)
    requires Printable(specs, graph) && ProperDefaults(specs) && RoundTrips(specs, graph) && KeepsAscii(nfkc)
    requires AsciiNames(show, graph.nodes) && AsciiAfterDefaults(specs, show, graph.nodes)
    ensures var first := Trip(u, nfkc, show, specs, graph, name);
            && first.Parsed? && Printable(specs, first.graph) && IsNormalForm(specs, graph, first.graph)
            && Trip(u, nfkc, show, specs, first.graph, name) == Parsed(first.graph, name)
  {
    RoundTripAscii(u, nfkc, show, specs, graph, name);
    RoundTripTwice(u, nfkc, show, specs, graph, name);
    NormalFormIsUnshadowed(u, nfkc, show, specs, graph, Trip(u, nfkc, show, specs, graph, name).graph);
  }

  // ------------------------------------- a default name that Unicode merges with another

  /** The value of a property in a normal node. */
  lemma {:induction false} NormalValue(specs: Registry, node: GraphNode, i: nat, spec: NodeSpec, k: nat)
    requires GoodRegistry(specs) && IsType(specs, node.typ) && spec == FindSpec(specs, node.typ).value
    requires k < |spec.properties|
    ensures Lookup(DataOf(NormalNode(specs, node, i).data), spec.properties[k].name)
         == Normal(spec.properties[k], DataOf(node.data))
  {
    var j :| 0 <= j < |specs| && specs[j] == spec;
    LookupCollect(spec.properties, p => Normal(p, DataOf(node.data)), k);
  }

  /** The type of both nodes has a name property with this text as its default, as the agent
      node has "Agent". */
  ghost predicate HasDefaultName(specs: Registry, typ: string, text: string) {
    IsType(specs, typ) &&
    exists k :: 0 <= k < |FindSpec(specs, typ).value.properties| &&
                FindSpec(specs, typ).value.properties[k].name == "name" &&
                FindSpec(specs, typ).value.properties[k].default == Str(text)
  }

  lemma NamedNode(show: Value -> string, node: GraphNode, text: string)
    requires Lookup(DataOf(node.data), "name") == Some(Str(text)) && text != ""
    ensures DisplayName(show, node) == text
  {}

  lemma {:induction false} NormalNames(
    show: Value -> string, specs: Registry, node: GraphNode, i: nat, text: string, other: string)
    requires GoodRegistry(specs) && HasDefaultName(specs, node.typ, text) && text != "" && other != "" && other != text
    ensures Lookup(DataOf(node.data), "name") == None ==> DisplayName(show, NormalNode(specs, node, i)) == text
    ensures Lookup(DataOf(node.data), "name") == Some(Str(other)) ==>
              DisplayName(show, NormalNode(specs, node, i)) == other
  {
    var spec := FindSpec(specs, node.typ).value;
    var k :| 0 <= k < |spec.properties| && spec.properties[k].name == "name" && spec.properties[k].default == Str(text);
    NormalValue(specs, node, i, spec, k);
    NormalText(spec.properties[k], DataOf(node.data), text, other);
    if Lookup(DataOf(node.data), "name") == None {
      NamedNode(show, NormalNode(specs, node, i), text);
    } else if Lookup(DataOf(node.data), "name") == Some(Str(other)) {
      NamedNode(show, NormalNode(specs, node, i), other);
    }
  }

  lemma NormalText(prop: PropertySpec, data: Fields, text: string, other: string)
    requires prop.default == Str(text) && other != text
    ensures Lookup(data, prop.name) == None ==> Normal(prop, data) == Some(Str(text))
    ensures Lookup(data, prop.name) == Some(Str(other)) ==> Normal(prop, data) == Some(Str(other))
  {}

  /** One node has no name, and the default name of its type reads as the other node's name
      does, while its id does not: a node "x" without a name and a node called "\U{AA}gent",
      where the default is "Agent". */
  ghost predicate DefaultMerges(u: Identifiers.Unicode, nfkc: string -> string, show: Value -> string, specs: Registry,
                                nodes: seq<GraphNode>, text: string, other: string)
  {
    && |nodes| == 2 && nodes[0].id != nodes[1].id
    && nodes[0].typ == nodes[1].typ && HasDefaultName(specs, nodes[0].typ, text)
    && text != "" && other != "" && text != other
    && Lookup(DataOf(nodes[0].data), "name") == None
    && Lookup(DataOf(nodes[1].data), "name") == Some(Str(other))
    && var base, byDefault := Identifiers.BaseName(u, other), Identifiers.BaseName(u, text);
       && byDefault != base && nfkc(byDefault) == nfkc(base)
       && nfkc(Identifiers.BaseName(u, DisplayName(show, nodes[0]))) != nfkc(base)
  }

  lemma DifferentlyRead(graph: Graph, vars: seq<string>)
    requires |vars| == |graph.nodes| == 2 && AllResolved(graph) && vars[0] != vars[1]
    ensures EndpointsUnshadowed(graph, vars)
  {}

  lemma {:induction false} FirstReadingsDiffer(u: Identifiers.Unicode, nfkc: string -> string, show: Value -> string,
                                               nodes: seq<GraphNode>, id: string, base: string)
    requires |nodes| == 2 && nfkc(id) != nfkc(base)
    requires Identifiers.BaseName(u, DisplayName(show, nodes[0])) == id
    requires Identifiers.BaseName(u, DisplayName(show, nodes[1])) == base
    ensures ReadVariables(u, nfkc, show, nodes)[0] != ReadVariables(u, nfkc, show, nodes)[1]
  {
    TwoReadings(u, nfkc, show, nodes, id, base);
  }

  lemma {:induction false} FirstTripIsExact(
    u: Identifiers.Unicode, nfkc: string -> string, show: Value -> string, specs: Registry, graph: Graph,
    text: string, other: string)
    requires AllResolved(graph) && DefaultMerges(u, nfkc, show, specs, graph.nodes, text, other)
    ensures EndpointsUnshadowed(graph, ReadVariables(u, nfkc, show, graph.nodes))
  {
    NamedNode(show, graph.nodes[1], other);
    FirstReadingsDiffer(u, nfkc, show, graph.nodes,
                        Identifiers.BaseName(u, DisplayName(show, graph.nodes[0])), Identifiers.BaseName(u, other));
    DifferentlyRead(graph, ReadVariables(u, nfkc, show, graph.nodes));
  }

  lemma FirstEdgeFromFirst(specs: Registry, graph: Graph, r: Graph)
    requires KnownTypes(specs, graph.nodes) && AllResolved(graph) && IsNormalForm(specs, graph, r)
    requires |graph.nodes| == 2 && |graph.edges| > 0
    requires graph.edges[0].source == graph.nodes[0].id != graph.nodes[1].id
    ensures r.edges[0].source == r.nodes[0].id != r.nodes[1].id
  {
    assert LastWithId(graph.nodes, graph.nodes[0].id) == Some(0);
    assert r.edges[0] == NormalEdge(graph, graph.edges[0]);
    assert Decimal(1) != Decimal(2);
  }

  lemma {:induction false} SecondTripIsNot(
    u: Identifiers.Unicode, nfkc: string -> string, show: Value -> string, specs: Registry, graph: Graph, r: Graph,
    text: string, other: string)
    requires GoodRegistry(specs) && KnownTypes(specs, graph.nodes) && AllResolved(graph) && AllResolved(r)
    requires IsNormalForm(specs, graph, r) && DefaultMerges(u, nfkc, show, specs, graph.nodes, text, other)
    requires |graph.edges| > 0 && graph.edges[0].source == graph.nodes[0].id
    ensures !EndpointsUnshadowed(r, ReadVariables(u, nfkc, show, r.nodes))
  {
    FirstEdgeFromFirst(specs, graph, r);
    NormalNames(show, specs, graph.nodes[0], 0, text, other);
    NormalNames(show, specs, graph.nodes[1], 1, text, other);
    TwoReadings(u, nfkc, show, r.nodes, Identifiers.BaseName(u, text), Identifiers.BaseName(u, other));
    SharedVariableShadows(r, ReadVariables(u, nfkc, show, r.nodes));
  }

  /** The first trip can be exact and the second not: a node without a name prints under its id
      and comes back with the default name, which NFKC merges with the other node's name, and
      the edge between them moves. */
  lemma {:induction false} DefaultNameMovesEdge(
    u: Identifiers.Unicode, nfkc: string -> string, show: Value -> string, specs: Registry, graph: Graph, name: string,
    text: string, other: string)
    requires Printable(specs, graph) && ProperDefaults(specs) && RoundTrips(specs, graph)
    requires DefaultMerges(u, nfkc, show, specs, graph.nodes, text, other)
    requires |graph.edges| > 0 && graph.edges[0].source == graph.nodes[0].id
    ensures var first := Trip(u, nfkc, show, specs, graph, name);
            && first.Parsed? && Printable(specs, first.graph) && IsNormalForm(specs, graph, first.graph)
            && Trip(u, nfkc, show, specs, first.graph, name) != Parsed(first.graph, name)
  {
    FirstTripIsExact(u, nfkc, show, specs, graph, text, other);
    RoundTrip(u, nfkc, show, specs, graph, name);
    RoundTripTwice(u, nfkc, show, specs, graph, name);
    SecondTripIsNot(u, nfkc, show, specs, graph, Trip(u, nfkc, show, specs, graph, name).graph, text, other);
  }
}
