/** Printing a stored graph and parsing the program again. */
module BridgeRoundTrip {
  import opened Optional
  import opened PyValues
  import opened NodeSpecs
  import opened PySource
  import opened Bridge
  import opened BridgeData
  import opened BridgeParser
  import opened Text
  import Identifiers

  /** Registry facts: class names tell types apart, and no property name repeats. */
  ghost predicate GoodRegistry(specs: Registry) {
    && (forall i, j :: 0 <= i < j < |specs| ==> ClassName(specs[i].name, true) != ClassName(specs[j].name, true))
    && forall i :: 0 <= i < |specs| ==> DistinctProperties(specs[i].properties)
  }

  /** A stored graph is Python data, so its dictionaries have unique keys. */
  ghost predicate ProperGraph(graph: Graph) {
    && (forall i :: 0 <= i < |graph.nodes| ==> ProperFields(DataOf(graph.nodes[i].data)))
    && forall i :: 0 <= i < |graph.edges| ==> ProperFields(DataOf(graph.edges[i].data))
  }

  ghost predicate Printable(specs: Registry, graph: Graph) {
    GoodRegistry(specs) && ProperGraph(graph) && KnownTypes(specs, graph.nodes) && AllResolved(graph)
  }

  predicate Labelled(edge: GraphEdge) {
    IsFilledText(Lookup(DataOf(edge.data), "label")) && IsFilledText(Lookup(DataOf(edge.data), "condition"))
  }

  /** What the caller can check before relying on a round trip. */
  ghost predicate RoundTrips(specs: Registry, graph: Graph)
    requires KnownTypes(specs, graph.nodes)
  {
    && (forall i :: 0 <= i < |graph.edges| ==> Labelled(graph.edges[i]))
    && forall i :: 0 <= i < |graph.nodes| ==>
                     Survives(FindSpec(specs, graph.nodes[i].typ).value, DataOf(graph.nodes[i].data))
  }

  // ------------------------------------------------------- the result, directly

  /** The last position at which a variable is bound. */
  function LastBinding(vars: seq<string>, v: string): (r: nat)
    requires v in vars
    ensures r < |vars| && vars[r] == v && forall i :: r < i < |vars| ==> vars[i] != v
  {
    if vars[|vars| - 1] == v then |vars| - 1 else LastBinding(vars[..|vars| - 1], v)
  }

  /** The node an edge endpoint is read back as, when node `i` is bound to `vars[i]`. */
  function Endpoint(nodes: seq<GraphNode>, vars: seq<string>, id: string): nat
    requires |vars| == |nodes| && LastWithId(nodes, id).Some?
  {
    LastBinding(vars, vars[LastWithId(nodes, id).value])
  }

  ghost function NormalNode(specs: Registry, node: GraphNode, i: nat): GraphNode
    requires IsType(specs, node.typ)
  {
    GraphNode(Decimal(i + 1), node.typ, 0.0, 0.0, Dict(NormalData(FindSpec(specs, node.typ).value, DataOf(node.data))))
  }

  function EdgeBetween(source: nat, target: nat, data: Fields): GraphEdge {
    GraphEdge(Decimal(source + 1) + "-" + Decimal(target + 1), Decimal(source + 1), Decimal(target + 1), Dict(data))
  }

  ghost function ReadEdge(graph: Graph, vars: seq<string>, edge: GraphEdge): GraphEdge
    requires |vars| == |graph.nodes| && Resolved(graph.nodes, edge)
  {
    EdgeBetween(Endpoint(graph.nodes, vars, edge.source), Endpoint(graph.nodes, vars, edge.target),
                KnownEdgeData(DataOf(edge.data)))
  }

  /** The graph a round trip under the naming `vars` yields: nodes in order, renumbered from
      1 and moved to the origin, with normal data; edges in order, with declared fields only,
      between the nodes their variables denote. */
  ghost predicate IsReadBack(specs: Registry, graph: Graph, vars: seq<string>, r: Graph)
    requires |vars| == |graph.nodes| && KnownTypes(specs, graph.nodes) && AllResolved(graph)
  {
    && |r.nodes| == |graph.nodes|
    && |r.edges| == |graph.edges|
    && (forall i :: 0 <= i < |r.nodes| ==> r.nodes[i] == NormalNode(specs, graph.nodes[i], i))
    && forall i :: 0 <= i < |r.edges| ==>
                     r.edges[i] == ReadEdge(graph, vars, graph.edges[i])
  }

  // ---------------------------------------------------------------- statements

  lemma {:induction false} ArgumentsRoundTrip(fields: Fields)
    requires ProperFields(fields)
    ensures KeywordValues(Arguments(fields)) == Ok(fields)
  {
    if fields == [] {
    } else {
      var n := |fields| - 1;
      ArgumentsRoundTrip(fields[..n]);
      assert Arguments(fields)[..n] == Arguments(fields[..n]);
      LiteralRoundTrip(fields[n].value);
      assert fields == fields[..n] + [fields[n]];
    }
  }

  lemma {:induction false} TypeOfOwnClass(specs: Registry, typ: string)
    requires forall i, j :: 0 <= i < j < |specs| ==> ClassName(specs[i].name, true) != ClassName(specs[j].name, true)
    requires IsType(specs, typ)
    ensures TypeOfClass(specs, ClassName(typ, true)) == Some(typ)
  {
    var n := |specs| - 1;
    if specs[n].name == typ {
    } else {
      var i :| 0 <= i < |specs| && specs[i].name == typ;
      assert specs[..n][i].name == typ;
      TypeOfOwnClass(specs[..n], typ);
    }
  }

  lemma AddTypedStep(specs: Registry, variable: string, args: seq<Expr>, call: NodeCall, st: State)
    requires AddTyped(specs, args, []) == Ok(call) && st.workflowVar == Some("workflow")
    ensures Step(specs, st, Assign([Name(variable)], Call(Method("add_typed"), args, [])))
            == st.BindNode(variable, Ok(call))
  {}

  lemma NodeStatement(specs: Registry, spec: NodeSpec, node: GraphNode, variable: string, st: State)
    requires GoodRegistry(specs) && IsType(specs, node.typ) && spec == FindSpec(specs, node.typ).value
    requires ProperFields(DataOf(node.data))
    requires st.workflowVar == Some("workflow")
    ensures Step(specs, st, NodeStmt(spec, node, variable)) ==
            st.BindNode(variable, Ok(NodeCall(node.typ, 0.0, 0.0, Authored(spec, DataOf(node.data)))))
  {
    var i :| 0 <= i < |specs| && specs[i] == spec;
    var authored := Authored(spec, DataOf(node.data));
    AuthoredProper(spec, DataOf(node.data));
    ArgumentsRoundTrip(authored);
    TypeOfOwnClass(specs, node.typ);
    AddTypedNode(specs, node.typ, Arguments(authored), authored);
    AddTypedStep(specs, variable, [Call(Name(ClassName(spec.name, true)), [], Arguments(authored))],
                 NodeCall(node.typ, 0.0, 0.0, authored), st);
  }

  lemma AddTypedNode(specs: Registry, typ: string, keywords: seq<Keyword>, data: Fields)
    requires KeywordValues(keywords) == Ok(data)
    requires TypeOfClass(specs, ClassName(typ, true)) == Some(typ)
    ensures AddTyped(specs, [Call(Name(ClassName(typ, true)), [], keywords)], []) == Ok(NodeCall(typ, 0.0, 0.0, data))
  {
    var args := [Call(Name(ClassName(typ, true)), [], keywords)];
    assert Keywords([], keywords) == Ok(data);
    assert KeywordValues([]) == Ok([]);
    assert Keywords(args, []) == Ok([]);
  }

  lemma {:induction false} KnownEdgeDataFrom(data: Fields)
    ensures Within(KnownEdgeData(data), EDGE_FIELDS)
    ensures forall i :: 0 <= i < |KnownEdgeData(data)| ==>
            exists j :: 0 <= j < |data| && data[j] == KnownEdgeData(data)[i]
  {
    if data == [] {
    } else {
      KnownEdgeDataFrom(data[1..]);
      assert forall j :: 0 < j < |data| ==> data[j] == data[1..][j - 1];
    }
  }

  lemma {:induction false} KnownEdgeDataProper(data: Fields)
    requires ProperFields(data)
    ensures ProperFields(KnownEdgeData(data))
  {
    if data == [] {
    } else {
      KnownEdgeDataProper(data[1..]);
      KnownEdgeDataFrom(data[1..]);
    }
  }

  lemma {:induction false} KnownEdgeDataFacts(data: Fields, name: string)
    requires ProperFields(data)
    ensures ProperFields(KnownEdgeData(data)) && Within(KnownEdgeData(data), EDGE_FIELDS)
    ensures name in EDGE_FIELDS ==> Lookup(KnownEdgeData(data), name) == Lookup(data, name)
    decreases |data|
  {
    KnownEdgeDataFrom(data);
    KnownEdgeDataProper(data);
    if data == [] {
    } else {
      KnownEdgeDataFacts(data[1..], name);
      var head := if data[0].name in EDGE_FIELDS then [data[0]] else [];
      LookupConcat(head, KnownEdgeData(data[1..]), name);
    }
  }

  function EdgeOutcome(edge: GraphEdge, source: string, target: string): Result<GraphEdge> {
    var data := DataOf(edge.data);
    if !IsFilledText(Lookup(data, "label")) then Error(EdgeLabelMissing)
    else if !IsFilledText(Lookup(data, "condition")) then Error(EdgeConditionMissing)
    else Ok(GraphEdge(source + "-" + target, source, target, Dict(KnownEdgeData(data))))
  }

  lemma EdgeCallOf(references: map<string, string>, source: string, target: string, keywords: seq<Keyword>,
                   data: Fields)
    requires source in references && target in references
    requires KeywordValues(keywords) == Ok(data) && Within(data, EDGE_FIELDS)
    ensures EdgeCall(references, Some("workflow"), Call(Method("edge"), [Name(source), Name(target)], keywords)) ==
            if !IsFilledText(Lookup(data, "label")) then Error(EdgeLabelMissing)
            else if !IsFilledText(Lookup(data, "condition")) then Error(EdgeConditionMissing)
            else Ok(GraphEdge(references[source] + "-" + references[target], references[source], references[target],
              Dict(data)))
  {
    var args := [Name(source), Name(target)];
    assert Keywords(args, keywords) == Ok(data);
  }

  lemma EdgeStatement(specs: Registry, edge: GraphEdge, source: string, target: string, st: State)
    requires ProperFields(DataOf(edge.data))
    requires st.workflowVar == Some("workflow") && source in st.references && target in st.references
    ensures Step(specs, st, EdgeStmt(edge, source, target)) ==
            st.AddEdge(EdgeOutcome(edge, st.references[source], st.references[target]))
  {
    var data := DataOf(edge.data);
    KnownEdgeDataFacts(data, "label");
    KnownEdgeDataFacts(data, "condition");
    ArgumentsRoundTrip(KnownEdgeData(data));
    EdgeCallOf(st.references, source, target, Arguments(KnownEdgeData(data)), KnownEdgeData(data));
  }

  // ----------------------------------------------------------------- whole programs

  /** What one printed node binds. */
  ghost function CallOf(specs: Registry, node: GraphNode): NodeCall
    requires IsType(specs, node.typ)
  {
    NodeCall(node.typ, 0.0, 0.0, Authored(FindSpec(specs, node.typ).value, DataOf(node.data)))
  }

  ghost function Calls(specs: Registry, nodes: seq<GraphNode>): (r: seq<NodeCall>)
    requires KnownTypes(specs, nodes)
    ensures |r| == |nodes| && forall i :: 0 <= i < |nodes| ==> r[i] == CallOf(specs, nodes[i])
  {
    seq(|nodes|, i requires 0 <= i < |nodes| => CallOf(specs, nodes[i]))
  }

  /** The nodes that a run of bindings collects. */
  ghost function Numbered(calls: seq<NodeCall>): (r: seq<GraphNode>)
    ensures |r| == |calls|
    ensures forall i :: 0 <= i < |calls| ==>
                          r[i] == GraphNode(Decimal(i + 1), calls[i].typ, calls[i].x, calls[i].y, Dict(calls[i].data))
  {
    seq(|calls|, i requires 0 <= i < |calls| =>
      GraphNode(Decimal(i + 1), calls[i].typ, calls[i].x, calls[i].y, Dict(calls[i].data)))
  }

  ghost function References(vars: seq<string>): map<string, string> {
    if vars == [] then map[]
    else References(vars[..|vars| - 1])[vars[|vars| - 1] := Decimal(|vars|)]
  }

  lemma {:induction false} ReferencesMeaning(vars: seq<string>, v: string)
    ensures v in References(vars) <==> v in vars
    ensures v in vars ==> References(vars)[v] == Decimal(LastBinding(vars, v) + 1)
  {
    if vars == [] {
    } else {
      var n := |vars| - 1;
      ReferencesMeaning(vars[..n], v);
      assert vars == vars[..n] + [vars[n]];
    }
  }

  lemma RunHeader(specs: Registry, nodes: seq<GraphNode>, workflowName: string)
    ensures Run(specs, Header(nodes, workflowName)) == State([], [], [], map[], Some("workflow"), workflowName)
  {
    var binding := Assign([Name("workflow")],
                          Call(Name("Workflow"), [], [Keyword(Some("name"), Constant(Str(workflowName)))]));
    var step := Stepper(specs);
    assert Steps(step, START, [Import]) == START;
    assert [Import, Import][..1] == [Import];
    assert Steps(step, START, [Import, Import]) == START;
    ArgumentsRoundTrip([Field("name", Str(workflowName))]);
    assert Arguments([Field("name", Str(workflowName))]) == [Keyword(Some("name"), Constant(Str(workflowName)))];
    assert WorkflowBinding(None, binding.value) == Ok(workflowName);
    var header := Header(nodes, workflowName);
    assert header[..|header| - 1] == [Import] || header[..|header| - 1] == [Import, Import];
  }

  lemma ReferencesSnoc(vars: seq<string>, k: nat)
    requires 0 < k <= |vars|
    ensures References(vars[..k]) == References(vars[..k - 1])[vars[k - 1] := Decimal(k)]
  {
    assert vars[..k][..k - 1] == vars[..k - 1];
  }

  lemma NumberedSnoc(calls: seq<NodeCall>, k: nat)
    requires 0 < k <= |calls|
    ensures Numbered(calls)[..k] ==
            Numbered(calls)[..k - 1] +
            [GraphNode(Decimal(k), calls[k - 1].typ, calls[k - 1].x, calls[k - 1].y, Dict(calls[k - 1].data))]
  {}

  ghost predicate Binds(step: (State, Stmt) -> State, s: Stmt, workflowVar: Option<string>, v: string, call: NodeCall) {
    forall st: State {:trigger step(st, s)} :: st.workflowVar == workflowVar ==> step(st, s) == st.BindNode(v, Ok(call))
  }

  /** Statements that each bind one node number the nodes in order. */
  lemma {:induction false} StepsBind(step: (State, Stmt) -> State, stmts: seq<Stmt>, vars: seq<string>,
                                     calls: seq<NodeCall>, st: State, k: nat)
    requires |stmts| == |vars| == |calls| && k <= |stmts|
    requires st.nodes == [] && st.references == map[]
    requires forall i {:trigger stmts[i]} :: 0 <= i < |stmts| ==>
             Binds(step, stmts[i], st.workflowVar, vars[i], calls[i])
    ensures Steps(step, st, stmts[..k]) == st.(nodes := Numbered(calls)[..k], references := References(vars[..k]))
    decreases k
  {
    if k == 0 {
    } else {
      StepsBind(step, stmts, vars, calls, st, k - 1);
      StepsSnoc(step, st, stmts, k);
      ReferencesSnoc(vars, k);
      NumberedSnoc(calls, k);
      assert Binds(step, stmts[k - 1], st.workflowVar, vars[k - 1], calls[k - 1]);
    }
  }

  ghost predicate AddsEdge(step: (State, Stmt) -> State, s: Stmt, st: State, outcome: Result<GraphEdge>) {
    forall s': State {:trigger step(s', s)} :: s'.workflowVar == st.workflowVar && s'.references == st.references ==>
                          step(s', s) == s'.AddEdge(outcome)
  }

  /** Statements that each add one edge or one error. */
  lemma {:induction false} StepsAddEdges(step: (State, Stmt) -> State, stmts: seq<Stmt>,
                                         outcomes: seq<Result<GraphEdge>>, st: State, k: nat)
    requires |stmts| == |outcomes| && k <= |stmts|
    requires st.errors == [] && st.edges == []
    requires forall i {:trigger stmts[i]} :: 0 <= i < |stmts| ==> AddsEdge(step, stmts[i], st, outcomes[i])
    ensures var st' := Steps(step, st, stmts[..k]);
            && st' == st.(errors := st'.errors, edges := st'.edges)
            && (st'.errors == [] <==> forall i :: 0 <= i < k ==> outcomes[i].Ok?)
            && (st'.errors == [] ==>
                  |st'.edges| == k && forall i :: 0 <= i < k ==> outcomes[i] == Ok(st'.edges[i]))
    decreases k
  {
    if k == 0 {
    } else {
      StepsAddEdges(step, stmts, outcomes, st, k - 1);
      StepsSnoc(step, st, stmts, k);
      assert AddsEdge(step, stmts[k - 1], st, outcomes[k - 1]);
    }
  }

  lemma NodeStatementBinds(specs: Registry, node: GraphNode, variable: string)
    requires GoodRegistry(specs) && IsType(specs, node.typ) && ProperFields(DataOf(node.data))
    ensures Binds(Stepper(specs), NodeStmt(FindSpec(specs, node.typ).value, node, variable), Some("workflow"),
                  variable, CallOf(specs, node))
  {
    var spec := FindSpec(specs, node.typ).value;
    forall s: State | s.workflowVar == Some("workflow")
      ensures Stepper(specs)(s, NodeStmt(spec, node, variable)) == s.BindNode(variable, Ok(CallOf(specs, node)))
    {
      NodeStatement(specs, spec, node, variable, s);
    }
  }

  lemma {:induction false} RunNodes(specs: Registry, nodes: seq<GraphNode>, vars: seq<string>, st: State)
    requires GoodRegistry(specs) && |vars| == |nodes| && KnownTypes(specs, nodes)
    requires forall i :: 0 <= i < |nodes| ==> ProperFields(DataOf(nodes[i].data))
    requires st.workflowVar == Some("workflow") && st.nodes == [] && st.references == map[]
    ensures Steps(Stepper(specs), st, NodeStmts(specs, nodes, vars)) ==
            st.(nodes := Numbered(Calls(specs, nodes)), references := References(vars))
  {
    var stmts, calls, step := NodeStmts(specs, nodes, vars), Calls(specs, nodes), Stepper(specs);
    forall i | 0 <= i < |stmts| ensures Binds(step, stmts[i], st.workflowVar, vars[i], calls[i]) {
      NodeStatementBinds(specs, nodes[i], vars[i]);
    }
    StepsBind(step, stmts, vars, calls, st, |stmts|);
    assert stmts[..|stmts|] == stmts && vars[..|vars|] == vars && Numbered(calls)[..|calls|] == Numbered(calls);
  }

  ghost function Outcome(graph: Graph, vars: seq<string>, edge: GraphEdge): Result<GraphEdge>
    requires |vars| == |graph.nodes| && Resolved(graph.nodes, edge)
  {
    if Labelled(edge) then Ok(ReadEdge(graph, vars, edge))
    else if IsFilledText(Lookup(DataOf(edge.data), "label")) then Error(EdgeConditionMissing)
    else Error(EdgeLabelMissing)
  }

  ghost function Outcomes(graph: Graph, vars: seq<string>): (r: seq<Result<GraphEdge>>)
    requires |vars| == |graph.nodes| && AllResolved(graph)
    ensures |r| == |graph.edges|
    ensures forall i :: 0 <= i < |r| ==> r[i] == Outcome(graph, vars, graph.edges[i])
  {
    seq(|graph.edges|, i requires 0 <= i < |graph.edges| => Outcome(graph, vars, graph.edges[i]))
  }

  lemma EdgeStatementAdds(specs: Registry, edge: GraphEdge, source: string, target: string, st: State)
    requires ProperFields(DataOf(edge.data))
    requires st.workflowVar == Some("workflow") && source in st.references && target in st.references
    ensures AddsEdge(Stepper(specs), EdgeStmt(edge, source, target), st,
                     EdgeOutcome(edge, st.references[source], st.references[target]))
  {
    var outcome := EdgeOutcome(edge, st.references[source], st.references[target]);
    forall s: State | s.workflowVar == st.workflowVar && s.references == st.references
      ensures Stepper(specs)(s, EdgeStmt(edge, source, target)) == s.AddEdge(outcome)
    {
      EdgeStatement(specs, edge, source, target, s);
    }
  }

  lemma ReferenceOf(nodes: seq<GraphNode>, vars: seq<string>, id: string)
    requires |vars| == |nodes| && LastWithId(nodes, id).Some?
    ensures var v := vars[LastWithId(nodes, id).value];
            v in References(vars) && References(vars)[v] == Decimal(Endpoint(nodes, vars, id) + 1)
  {
    ReferencesMeaning(vars, vars[LastWithId(nodes, id).value]);
  }

  lemma OutcomeBetween(graph: Graph, vars: seq<string>, edge: GraphEdge, source: string, target: string)
    requires |vars| == |graph.nodes| && Resolved(graph.nodes, edge)
    requires source == Decimal(Endpoint(graph.nodes, vars, edge.source) + 1)
    requires target == Decimal(Endpoint(graph.nodes, vars, edge.target) + 1)
    ensures EdgeOutcome(edge, source, target) == Outcome(graph, vars, edge)
  {}

  lemma {:induction false} EdgeStatementAt(specs: Registry, graph: Graph, vars: seq<string>, edge: GraphEdge, st: State)
    requires |vars| == |graph.nodes| && Resolved(graph.nodes, edge) && ProperFields(DataOf(edge.data))
    requires st.references == References(vars) && st.workflowVar == Some("workflow")
    ensures AddsEdge(Stepper(specs), EdgeStmt(edge, vars[LastWithId(graph.nodes, edge.source).value],
                                                    vars[LastWithId(graph.nodes, edge.target).value]),
                     st, Outcome(graph, vars, edge))
  {
    var source, target := vars[LastWithId(graph.nodes, edge.source).value],
      vars[LastWithId(graph.nodes, edge.target).value];
    ReferenceOf(graph.nodes, vars, edge.source);
    ReferenceOf(graph.nodes, vars, edge.target);
    OutcomeBetween(graph, vars, edge, st.references[source], st.references[target]);
    EdgeStatementAdds(specs, edge, source, target, st);
  }

  lemma AllEdgesAdd(specs: Registry, graph: Graph, vars: seq<string>, st: State, i: nat)
    requires |vars| == |graph.nodes| && AllResolved(graph) && ProperGraph(graph) && i < |graph.edges|
    requires st.references == References(vars) && st.workflowVar == Some("workflow")
    ensures AddsEdge(Stepper(specs), EdgeStmts(graph, vars)[i], st, Outcomes(graph, vars)[i])
  {
    EdgeStatementAt(specs, graph, vars, graph.edges[i], st);
  }

  lemma OutcomesOk(graph: Graph, vars: seq<string>)
    requires |vars| == |graph.nodes| && AllResolved(graph)
    ensures forall i :: 0 <= i < |graph.edges| ==>
                          if Labelled(graph.edges[i])
                            then Outcomes(graph, vars)[i] == Ok(ReadEdge(graph, vars, graph.edges[i]))
                          else Outcomes(graph, vars)[i].Error?
  {}

  lemma RunEdges(specs: Registry, graph: Graph, vars: seq<string>, st: State)
    requires |vars| == |graph.nodes| && AllResolved(graph) && ProperGraph(graph)
    requires st.errors == [] && st.edges == [] && st.references == References(vars) &&
             st.workflowVar == Some("workflow")
    ensures var st' := Steps(Stepper(specs), st, EdgeStmts(graph, vars));
            && st' == st.(errors := st'.errors, edges := st'.edges)
            && (st'.errors == [] <==> forall i :: 0 <= i < |graph.edges| ==> Outcomes(graph, vars)[i].Ok?)
            && (st'.errors == [] ==>
                  |st'.edges| == |graph.edges| &&
                  forall i :: 0 <= i < |graph.edges| ==> Outcomes(graph, vars)[i] == Ok(st'.edges[i]))
  {
    var stmts := EdgeStmts(graph, vars);
    forall i | 0 <= i < |stmts| ensures AddsEdge(Stepper(specs), stmts[i], st, Outcomes(graph, vars)[i]) {
      AllEdgesAdd(specs, graph, vars, st, i);
    }
    StepsAddEdges(Stepper(specs), stmts, Outcomes(graph, vars), st, |stmts|);
    assert stmts[..|stmts|] == stmts;
  }

  lemma {:induction false} NodeErrorsMeaning(nodes: seq<GraphNode>, checks: seq<Validated>)
    requires |checks| == |nodes|
    ensures NodeErrors(nodes, checks) == [] <==> forall i :: 0 <= i < |nodes| ==> checks[i].Valid?
  {
    if nodes == [] {
    } else {
      NodeErrorsMeaning(nodes[..|nodes| - 1], checks[..|nodes| - 1]);
    }
  }

  lemma CheckCall(specs: Registry, node: GraphNode, i: nat, collected: GraphNode)
    requires GoodRegistry(specs) && IsType(specs, node.typ) && ProperFields(DataOf(node.data))
    requires var call := CallOf(specs, node);
             collected == GraphNode(Decimal(i + 1), call.typ, call.x, call.y, Dict(call.data))
    ensures if Survives(FindSpec(specs, node.typ).value, DataOf(node.data))
            then Checked(specs, collected).Valid? &&
              WithChecked(collected, Checked(specs, collected)) == NormalNode(specs, node, i)
            else Checked(specs, collected).Invalid?
  {
    var spec := FindSpec(specs, node.typ).value;
    var k :| 0 <= k < |specs| && specs[k] == spec;
    ValidateAuthored(spec, DataOf(node.data));
  }

  lemma CheckoutMeaning(nodes: seq<GraphNode>, edges: seq<GraphEdge>, name: string, checks: seq<Validated>)
    requires |checks| == |nodes|
    ensures var r := Checkout(nodes, edges, name, checks);
            if forall i :: 0 <= i < |nodes| ==> checks[i].Valid?
            then r == Parsed(Graph(WithAllChecked(nodes, checks), edges), name)
            else r.Rejected? && r.stage == Validate
  {
    NodeErrorsMeaning(nodes, checks);
  }

  ghost predicate ChecksOut(node: GraphNode, check: Validated, survives: bool, normal: GraphNode) {
    if survives then check.Valid? && WithChecked(node, check) == normal else check.Invalid?
  }

  lemma CheckoutGives(nodes: seq<GraphNode>, edges: seq<GraphEdge>, name: string, checks: seq<Validated>,
                      survives: seq<bool>, normal: seq<GraphNode>)
    requires |checks| == |survives| == |normal| == |nodes|
    requires forall i :: 0 <= i < |nodes| ==> ChecksOut(nodes[i], checks[i], survives[i], normal[i])
    ensures var r := Checkout(nodes, edges, name, checks);
            if forall i :: 0 <= i < |nodes| ==> survives[i] then r == Parsed(Graph(normal, edges), name)
            else r.Rejected? && r.stage == Validate
  {
    CheckoutMeaning(nodes, edges, name, checks);
    if forall i :: 0 <= i < |nodes| ==> survives[i] {
      assert WithAllChecked(nodes, checks) == normal;
    } else {
      var i :| 0 <= i < |nodes| && !survives[i];
      assert checks[i].Invalid?;
    }
  }

  ghost function SurvivesIn(specs: Registry, node: GraphNode): bool
    requires IsType(specs, node.typ)
  {
    Survives(FindSpec(specs, node.typ).value, DataOf(node.data))
  }

  ghost function AllSurvive(specs: Registry, nodes: seq<GraphNode>): (r: seq<bool>)
    requires KnownTypes(specs, nodes)
    ensures |r| == |nodes| && forall i :: 0 <= i < |r| ==> r[i] == SurvivesIn(specs, nodes[i])
  {
    seq(|nodes|, i requires 0 <= i < |nodes| => SurvivesIn(specs, nodes[i]))
  }

  ghost function NormalNodes(specs: Registry, nodes: seq<GraphNode>): (r: seq<GraphNode>)
    requires KnownTypes(specs, nodes)
    ensures |r| == |nodes| && forall i :: 0 <= i < |r| ==> r[i] == NormalNode(specs, nodes[i], i)
  {
    seq(|nodes|, i requires 0 <= i < |nodes| => NormalNode(specs, nodes[i], i))
  }

  lemma CallChecksOut(specs: Registry, nodes: seq<GraphNode>, collected: seq<GraphNode>, i: nat)
    requires GoodRegistry(specs) && KnownTypes(specs, nodes) && i < |nodes|
    requires collected == Numbered(Calls(specs, nodes)) && ProperFields(DataOf(nodes[i].data))
    ensures ChecksOut(collected[i], Checked(specs, collected[i]), SurvivesIn(specs, nodes[i]),
            NormalNode(specs, nodes[i], i))
  {
    CheckCall(specs, nodes[i], i, collected[i]);
  }

  lemma {:induction false} FinishGives(specs: Registry, graph: Graph, st: State)
    requires GoodRegistry(specs) && ProperGraph(graph) && KnownTypes(specs, graph.nodes)
    requires st.errors == [] && st.workflowVar.Some? && st.nodes == Numbered(Calls(specs, graph.nodes))
    requires KnownTypes(specs, st.nodes)
    ensures var r, survive := Finish(specs, st), AllSurvive(specs, graph.nodes);
            if forall i :: 0 <= i < |survive| ==> survive[i]
            then r == Parsed(Graph(NormalNodes(specs, graph.nodes), st.edges), st.workflowName)
            else r.Rejected? && r.stage == Validate
  {
    var checks, survive, normal := CheckAll(specs, st.nodes), AllSurvive(specs, graph.nodes),
      NormalNodes(specs, graph.nodes);
    forall i | 0 <= i < |st.nodes| ensures ChecksOut(st.nodes[i], checks[i], survive[i], normal[i]) {
      CallChecksOut(specs, graph.nodes, st.nodes, i);
    }
    CheckoutGives(st.nodes, st.edges, st.workflowName, checks, survive, normal);
  }

  lemma {:induction false} FinishRun(specs: Registry, graph: Graph, st: State)
    requires GoodRegistry(specs) && ProperGraph(graph) && KnownTypes(specs, graph.nodes)
    requires st.errors == [] && st.workflowVar.Some? && st.nodes == Numbered(Calls(specs, graph.nodes))
    requires KnownTypes(specs, st.nodes)
    ensures var r := Finish(specs, st);
            if forall i :: 0 <= i < |graph.nodes| ==>
                             Survives(FindSpec(specs, graph.nodes[i].typ).value, DataOf(graph.nodes[i].data))
            then r.Parsed? && r.name == st.workflowName && r.graph.edges == st.edges &&
              |r.graph.nodes| == |graph.nodes| &&
                 forall i :: 0 <= i < |graph.nodes| ==> r.graph.nodes[i] == NormalNode(specs, graph.nodes[i], i)
            else r.Rejected? && r.stage == Validate
  {
    FinishGives(specs, graph, st);
    var survive := AllSurvive(specs, graph.nodes);
    if i :| 0 <= i < |graph.nodes| && !SurvivesIn(specs, graph.nodes[i]) {
      assert !survive[i];
    }
  }

  lemma RunProgram(specs: Registry, graph: Graph, name: string, vars: seq<string>)
    requires Printable(specs, graph) && |vars| == |graph.nodes|
    ensures IsFinalState(specs, graph, name, vars, Run(specs, Program(specs, graph, name, vars)))
  {
    var step := Stepper(specs);
    var header, nodes, edges := Header(graph.nodes, name), NodeStmts(specs, graph.nodes, vars), EdgeStmts(graph, vars);
    RunHeader(specs, graph.nodes, name);
    StepsConcat(step, START, header, nodes);
    RunNodes(specs, graph.nodes, vars, Steps(step, START, header));
    StepsConcat(step, START, header + nodes, edges);
    RunEdges(specs, graph, vars, Steps(step, START, header + nodes));
  }

  /** The states from which the read-back graph is returned. */
  ghost predicate IsFinalState(specs: Registry, graph: Graph, name: string, vars: seq<string>, st: State)
    requires |vars| == |graph.nodes| && KnownTypes(specs, graph.nodes) && AllResolved(graph)
  {
    && st.workflowVar == Some("workflow") && st.workflowName == name
    && st.nodes == Numbered(Calls(specs, graph.nodes))
    && (st.errors == [] <==> forall i :: 0 <= i < |graph.edges| ==> Outcomes(graph, vars)[i].Ok?)
    && (st.errors == [] ==>
          |st.edges| == |graph.edges| &&
          forall i :: 0 <= i < |graph.edges| ==> Outcomes(graph, vars)[i] == Ok(st.edges[i]))
  }

  lemma {:induction false} FinishFinalState(specs: Registry, graph: Graph, name: string, vars: seq<string>, st: State)
    requires Printable(specs, graph) && |vars| == |graph.nodes|
    requires IsFinalState(specs, graph, name, vars, st) && KnownTypes(specs, st.nodes)
    ensures var r := Finish(specs, st);
            if RoundTrips(specs, graph) then r.Parsed? && r.name == name && IsReadBack(specs, graph, vars, r.graph)
            else r.Rejected?
  {
    OutcomesOk(graph, vars);
    if st.errors == [] {
      FinishRun(specs, graph, st);
    }
  }

  /** Printing any printable graph under any naming of its nodes, then parsing: the parser
      accepts exactly the graphs that pass `RoundTrips`, and returns the read-back graph. */
  lemma {:induction false} PrintThenParse(specs: Registry, graph: Graph, name: string, vars: seq<string>)
    requires Printable(specs, graph) && |vars| == |graph.nodes|
    ensures var r := ParseSource(specs, Program(specs, graph, name, vars));
            if RoundTrips(specs, graph) then r.Parsed? && r.name == name && IsReadBack(specs, graph, vars, r.graph)
            else r.Rejected?
  {
    RunProgram(specs, graph, name, vars);
    RunKnowsTypes(specs, Program(specs, graph, name, vars));
    FinishFinalState(specs, graph, name, vars, Run(specs, Program(specs, graph, name, vars)));
  }
}
