/** The first promise of the bridge: a printed graph parses back to its normal form. Exactly
    when, given that Python normalises the identifiers it reads
    (Python Language Reference, section 2.3). */
module BridgeNormalForm {
  import opened Optional
  import opened PyValues
  import opened NodeSpecs
  import opened PySource
  import opened Bridge
  import opened BridgeData
  import opened BridgeParser
  import opened BridgeRoundTrip
  import opened Text
  import Identifiers

  /** The normal form of a graph: the read-back graph with every edge between the nodes it
      was stored between. */
  ghost predicate IsNormalForm(specs: Registry, graph: Graph, r: Graph)
    requires KnownTypes(specs, graph.nodes) && AllResolved(graph)
  {
    && |r.nodes| == |graph.nodes|
    && |r.edges| == |graph.edges|
    && (forall i :: 0 <= i < |r.nodes| ==> r.nodes[i] == NormalNode(specs, graph.nodes[i], i))
    && forall i :: 0 <= i < |r.edges| ==> r.edges[i] == NormalEdge(graph, graph.edges[i])
  }

  function NormalEdge(graph: Graph, edge: GraphEdge): GraphEdge
    requires Resolved(graph.nodes, edge)
  {
    EdgeBetween(LastWithId(graph.nodes, edge.source).value, LastWithId(graph.nodes, edge.target).value,
                KnownEdgeData(DataOf(edge.data)))
  }

  /** The node with id `id` is not shadowed by a later node with the same variable. */
  ghost predicate Unshadowed(nodes: seq<GraphNode>, vars: seq<string>, id: string)
    requires |vars| == |nodes| && LastWithId(nodes, id).Some?
  {
    var i := LastWithId(nodes, id).value;
    forall j :: i < j < |vars| ==> vars[j] != vars[i]
  }

  ghost predicate EndpointsUnshadowed(graph: Graph, vars: seq<string>)
    requires |vars| == |graph.nodes| && AllResolved(graph)
  {
    forall i :: 0 <= i < |graph.edges| ==>
                  Unshadowed(graph.nodes, vars, graph.edges[i].source) &&
                    Unshadowed(graph.nodes, vars, graph.edges[i].target)
  }

  lemma EndpointExact(nodes: seq<GraphNode>, vars: seq<string>, id: string)
    requires |vars| == |nodes| && LastWithId(nodes, id).Some?
    ensures Endpoint(nodes, vars, id) == LastWithId(nodes, id).value <==> Unshadowed(nodes, vars, id)
  {}

  /** An edge is read back in its place exactly when neither endpoint is shadowed. */
  lemma ReadEdgeExact(graph: Graph, vars: seq<string>, edge: GraphEdge)
    requires |vars| == |graph.nodes| && Resolved(graph.nodes, edge)
    ensures ReadEdge(graph, vars, edge) == NormalEdge(graph, edge) <==>
            Unshadowed(graph.nodes, vars, edge.source) && Unshadowed(graph.nodes, vars, edge.target)
  {
    EndpointExact(graph.nodes, vars, edge.source);
    EndpointExact(graph.nodes, vars, edge.target);
    var read, normal := ReadEdge(graph, vars, edge), NormalEdge(graph, edge);
    if read == normal {
      DecimalInjective(Endpoint(graph.nodes, vars, edge.source) + 1, LastWithId(graph.nodes, edge.source).value + 1);
      DecimalInjective(Endpoint(graph.nodes, vars, edge.target) + 1, LastWithId(graph.nodes, edge.target).value + 1);
    }
  }

  lemma ReadBackIsNormal(specs: Registry, graph: Graph, vars: seq<string>, r: Graph)
    requires |vars| == |graph.nodes| && KnownTypes(specs, graph.nodes) && AllResolved(graph)
    requires IsReadBack(specs, graph, vars, r)
    ensures IsNormalForm(specs, graph, r) <==> EndpointsUnshadowed(graph, vars)
  {
    forall i | 0 <= i < |graph.edges|
      ensures r.edges[i] == NormalEdge(graph, graph.edges[i]) <==>
              Unshadowed(graph.nodes, vars, graph.edges[i].source) &&
                Unshadowed(graph.nodes, vars, graph.edges[i].target)
    {
      ReadEdgeExact(graph, vars, graph.edges[i]);
    }
  }

  /** Under a naming `vars` as Python reads it, a graph that round-trips comes back as its
      normal form exactly when no edge endpoint is shadowed. */
  lemma {:induction false} ReadBackExact(specs: Registry, graph: Graph, name: string, vars: seq<string>)
    requires Printable(specs, graph) && |vars| == |graph.nodes| && RoundTrips(specs, graph)
    ensures var r := ParseSource(specs, Program(specs, graph, name, vars));
            r.Parsed? && r.name == name && (IsNormalForm(specs, graph, r.graph) <==> EndpointsUnshadowed(graph, vars))
  {
    PrintThenParse(specs, graph, name, vars);
    ReadBackIsNormal(specs, graph, vars, ParseSource(specs, Program(specs, graph, name, vars)).graph);
  }

  lemma {:induction false} OwnVariablesUnshadowed(graph: Graph, bases: seq<string>)
    requires |bases| == |graph.nodes| && AllResolved(graph)
    ensures EndpointsUnshadowed(graph, Identifiers.Variables(bases))
  {
    forall i, j | 0 <= i < j < |bases| ensures Identifiers.Variables(bases)[i] != Identifiers.Variables(bases)[j] {
      Identifiers.VariablesDistinct(bases, i, j);
    }
  }

  // ------------------------------------------------------------- one round trip

  /** The variables as Python reads them: identifiers are normalised with NFKC. */
  function AsRead(nfkc: string -> string, vars: seq<string>): (r: seq<string>)
    ensures |r| == |vars| && forall i :: 0 <= i < |r| ==> r[i] == nfkc(vars[i])
  {
    seq(|vars|, i requires 0 <= i < |vars| => nfkc(vars[i]))
  }

  /** The printer's variables for these nodes, as Python reads them. */
  function ReadVariables(
    u: Identifiers.Unicode, nfkc: string -> string, show: Value -> string, nodes: seq<GraphNode>): (r: seq<string>)
    ensures |r| == |nodes|
  {
    AsRead(nfkc, Identifiers.Variables(Bases(u, show, nodes)))
  }

  /** Printing a graph and parsing the program. */
  function Trip(u: Identifiers.Unicode, nfkc: string -> string, show: Value -> string, specs: Registry, graph: Graph,
                name: string): ParseResult
    requires KnownTypes(specs, graph.nodes) && AllResolved(graph)
  {
    ParseSource(specs, Program(specs, graph, name, ReadVariables(u, nfkc, show, graph.nodes)))
  }

  /** Round trip: whatever its nodes are called, a printable graph is refused unless it passes
      `RoundTrips`; if it does it comes back as its normal form if and only if no edge endpoint's
      variable, as Python reads it, is bound again by a later node. */
  lemma {:induction false} RoundTrip(u: Identifiers.Unicode, nfkc: string -> string, show: Value -> string,
                                     specs: Registry, graph: Graph, name: string)
    requires Printable(specs, graph)
    ensures var vars, r := ReadVariables(u, nfkc, show, graph.nodes), Trip(u, nfkc, show, specs, graph, name);
            if RoundTrips(specs, graph)
            then r.Parsed? && r.name == name &&
              (IsNormalForm(specs, graph, r.graph) <==> EndpointsUnshadowed(graph, vars))
            else r.Rejected?
  {
    var vars := ReadVariables(u, nfkc, show, graph.nodes);
    if RoundTrips(specs, graph) {
      ReadBackExact(specs, graph, name, vars);
    } else {
      PrintThenParse(specs, graph, name, vars);
    }
  }

  // ---------------------------------------------------------------- ASCII names

  /** A fact about NFKC. */
  ghost predicate KeepsAscii(nfkc: string -> string) {
    forall s :: Ascii(s) ==> nfkc(s) == s
  }

  predicate AsciiNames(show: Value -> string, nodes: seq<GraphNode>) {
    forall i :: 0 <= i < |nodes| ==> Ascii(DisplayName(show, nodes[i]))
  }

  lemma {:induction false} AsciiVariableIsRead(
    u: Identifiers.Unicode, nfkc: string -> string, show: Value -> string, nodes: seq<GraphNode>, i: nat)
    requires KeepsAscii(nfkc) && AsciiNames(show, nodes) && i < |nodes|
    ensures ReadVariables(u, nfkc, show, nodes)[i] == Identifiers.Variables(Bases(u, show, nodes))[i]
  {
    var bases := Bases(u, show, nodes);
    var names := seq(|nodes|, k requires 0 <= k < |nodes| => DisplayName(show, nodes[k]));
    Identifiers.VariablesAreUsable(u, names, bases, i);
    assert Ascii(Identifiers.Variables(bases)[i]);
  }

  lemma {:induction false} AsciiIsUnshadowed(
    u: Identifiers.Unicode, nfkc: string -> string, show: Value -> string, graph: Graph)
    requires KeepsAscii(nfkc) && AsciiNames(show, graph.nodes) && AllResolved(graph)
    ensures EndpointsUnshadowed(graph, ReadVariables(u, nfkc, show, graph.nodes))
  {
    var bases := Bases(u, show, graph.nodes);
    forall i | 0 <= i < |graph.nodes|
      ensures ReadVariables(u, nfkc, show, graph.nodes)[i] == Identifiers.Variables(bases)[i]
    {
      AsciiVariableIsRead(u, nfkc, show, graph.nodes, i);
    }
    assert ReadVariables(u, nfkc, show, graph.nodes) == Identifiers.Variables(bases);
    OwnVariablesUnshadowed(graph, bases);
  }

  /** With ASCII node names every printable graph that passes `RoundTrips` comes back as its
      normal form. */
  lemma {:induction false} RoundTripAscii(u: Identifiers.Unicode, nfkc: string -> string, show: Value -> string,
                                          specs: Registry, graph: Graph, name: string)
    requires Printable(specs, graph) && RoundTrips(specs, graph)
    requires KeepsAscii(nfkc) && AsciiNames(show, graph.nodes)
    ensures var r := Trip(u, nfkc, show, specs, graph, name);
            r.Parsed? && r.name == name && IsNormalForm(specs, graph, r.graph)
  {
    RoundTrip(u, nfkc, show, specs, graph, name);
    AsciiIsUnshadowed(u, nfkc, show, graph);
  }

  // ------------------------------------------------ names that Unicode merges

  lemma StripKeeps(s: string, drop: char -> bool)
    requires s != [] && !drop(s[0]) && !drop(s[|s| - 1])
    ensures Strip(s, drop) == s
  {}

  lemma LetterIsNotReserved(c: char)
    ensures !Identifiers.Reserved([c])
  {
    var word := [c];
    assert |word| == 1;
  }

  lemma CollapseLetter(u: Identifiers.Unicode, c: char)
    requires Identifiers.IsWord(u, c)
    ensures Identifiers.Collapse(u, [c], false) == [c]
  {
    assert [c][1..] == [];
  }

  lemma {:induction false} LetterIsItsOwnSlug(u: Identifiers.Unicode, c: char)
    requires Identifiers.IsWord(u, c) && c != '_' && !IsSpace(c) && Identifiers.Lower(u, [c]) == [c]
    ensures Identifiers.Slug(u, [c]) == [c]
  {
    StripKeeps([c], IsSpace);
    StripKeeps([c], Identifiers.IsUnderscore);
    CollapseLetter(u, c);
  }

  /** A letter that is left alone when a variable is made of it. */
  predicate PlainLetter(u: Identifiers.Unicode, c: char) {
    && Identifiers.IsWord(u, c) && !Identifiers.IsDigit(u, c) && c != '_' && !IsSpace(c)
    && Identifiers.Lower(u, [c]) == [c]
  }

  lemma {:induction false} LetterIsItsOwnBase(u: Identifiers.Unicode, c: char)
    requires PlainLetter(u, c)
    ensures Identifiers.BaseName(u, [c]) == [c]
  {
    LetterIsItsOwnSlug(u, c);
    LetterIsNotReserved(c);
  }

  lemma {:induction false} SharedVariableShadows(graph: Graph, vars: seq<string>)
    requires |vars| == |graph.nodes| == 2 && AllResolved(graph) && |graph.edges| > 0 && vars[0] == vars[1]
    requires graph.edges[0].source == graph.nodes[0].id != graph.nodes[1].id
    ensures !EndpointsUnshadowed(graph, vars)
  {
    assert LastWithId(graph.nodes, graph.nodes[0].id) == Some(0);
    assert !Unshadowed(graph.nodes, vars, graph.edges[0].source);
  }

  lemma TwoVariables(first: string, second: string)
    requires first != second
    ensures Identifiers.Variables([first, second]) == [first, second]
  {
    VariableAt([first, second], 0);
    VariableAt([first, second], 1);
    var vars := Identifiers.Variables([first, second]);
    assert vars[..0] == [] && vars[..1] == [first];
    assert second !in Identifiers.Used([first]);
  }

  lemma IsPair(strings: seq<string>, first: string, second: string)
    requires |strings| == 2 && strings[0] == first && strings[1] == second
    ensures strings == [first, second]
  {}

  lemma {:induction false} TwoBases(
    u: Identifiers.Unicode, show: Value -> string, nodes: seq<GraphNode>, first: string, second: string)
    requires |nodes| == 2 && first != second
    requires Identifiers.BaseName(u, DisplayName(show, nodes[0])) == first
    requires Identifiers.BaseName(u, DisplayName(show, nodes[1])) == second
    ensures Identifiers.Variables(Bases(u, show, nodes)) == [first, second]
  {
    IsPair(Bases(u, show, nodes), first, second);
    TwoVariables(first, second);
  }

  lemma {:induction false} TwoReadings(u: Identifiers.Unicode, nfkc: string -> string, show: Value -> string,
                                       nodes: seq<GraphNode>, first: string, second: string)
    requires |nodes| == 2 && first != second
    requires Identifiers.BaseName(u, DisplayName(show, nodes[0])) == first
    requires Identifiers.BaseName(u, DisplayName(show, nodes[1])) == second
    ensures ReadVariables(u, nfkc, show, nodes)[0] == nfkc(first)
    ensures ReadVariables(u, nfkc, show, nodes)[1] == nfkc(second)
  {
    TwoBases(u, show, nodes, first, second);
  }

  /** Two nodes called by different letters that NFKC merges, such as "a" and the ordinal
      indicator U+00AA, get different variables, which Python reads as one: an edge from the
      first node then comes back as an edge from the second. */
  lemma {:induction false} MergedNamesMoveEdge(u: Identifiers.Unicode, nfkc: string -> string, show: Value -> string,
                                               specs: Registry, graph: Graph, name: string, c: char, d: char)
    requires Printable(specs, graph) && RoundTrips(specs, graph) && |graph.nodes| == 2 && |graph.edges| > 0
    requires graph.edges[0].source == graph.nodes[0].id != graph.nodes[1].id
    requires DisplayName(show, graph.nodes[0]) == [c] && DisplayName(show, graph.nodes[1]) == [d]
    requires PlainLetter(u, c) && PlainLetter(u, d) && c != d && nfkc([c]) == nfkc([d])
    ensures Identifiers.Variables(Bases(u, show, graph.nodes)) == [[c], [d]]
    ensures var r := Trip(u, nfkc, show, specs, graph, name);
            r.Parsed? && !IsNormalForm(specs, graph, r.graph)
  {
    LetterIsItsOwnBase(u, c);
    LetterIsItsOwnBase(u, d);
    TwoBases(u, show, graph.nodes, [c], [d]);
    SharedVariableShadows(graph, ReadVariables(u, nfkc, show, graph.nodes));
    RoundTrip(u, nfkc, show, specs, graph, name);
  }
}
