/** The printer half of the Python bridge: a stored workflow graph becomes a small Python
    program (`api/mcp_server/python_bridge.py:27-128`). */
module Bridge {
  import opened Optional
  import opened PyValues
  import opened NodeSpecs
  import opened PySource
  import Identifiers
  import Text

  datatype GraphNode = GraphNode(id: string, typ: string, x: real, y: real, data: Value)

  datatype GraphEdge = GraphEdge(id: string, source: string, target: string, data: Value)

  datatype Graph = Graph(nodes: seq<GraphNode>, edges: seq<GraphEdge>)

  /** The registry: specifications with different names. */
  type Registry = seq<NodeSpec>

  /** `EdgeDataDTO.model_fields`. */
  const EDGE_FIELDS: set<string> :=
    {"label", "condition", "transition_speech", "transition_speech_type", "transition_speech_recording_id"}

  // ---------------------------------------------------------------- names

  function Capital(c: char): char {
    if 'a' <= c <= 'z' then (c as int - 32) as char else c
  }

  /** `_class_name`. Splitting before an inner capital changes nothing once every word is
      capitalised, so only underscores separate words here. */
  function ClassName(s: string, wordStart: bool): string {
    if s == [] then []
    else if s[0] == '_' then ClassName(s[1..], true)
    else [if wordStart then Capital(s[0]) else s[0]] + ClassName(s[1..], false)
  }

  predicate IsType(specs: Registry, typ: string) {
    exists i :: 0 <= i < |specs| && specs[i].name == typ
  }

  function FindSpec(specs: Registry, typ: string): (r: Option<NodeSpec>)
    ensures r.Some? <==> IsType(specs, typ)
    ensures r.Some? ==> r.value in specs && r.value.name == typ
  {
    if specs == [] then None
    else if specs[0].name == typ then Some(specs[0])
    else
      assert forall i :: 0 < i < |specs| ==> specs[i] == specs[1..][i - 1];
      FindSpec(specs[1..], typ)
  }

  // ---------------------------------------------------- projection of node data

  /** The entries of a row that its collection declares. */
  function KnownCells(row: Fields, subs: seq<PropertySpec>): (r: Fields)
    ensures forall i :: 0 <= i < |r| ==> HasName(subs, r[i].name) && exists j :: 0 <= j < |row| && row[j] == r[i]
  {
    if row == [] then []
    else
      var rest := KnownCells(row[1..], subs);
      assert forall j :: 0 < j < |row| ==> row[j] == row[1..][j - 1];
      if HasName(subs, row[0].name) then [row[0]] + rest else rest
  }

  function KnownRows(rows: seq<Value>, subs: seq<PropertySpec>): (r: seq<Value>)
    ensures |r| == |rows|
    ensures forall i :: 0 <= i < |rows| ==>
                          r[i] == if rows[i].Dict? then Dict(KnownCells(rows[i].fields, subs)) else rows[i]
  {
    seq(|rows|, i requires 0 <= i < |rows| =>
      if rows[i].Dict? then Dict(KnownCells(rows[i].fields, subs)) else rows[i])
  }

  function KnownValue(prop: PropertySpec, v: Value): Value {
    if prop.typ == FixedCollection && v.List? then List(KnownRows(v.items, prop.properties)) else v
  }

  /** `_known_data`. */
  function KnownData(props: seq<PropertySpec>, data: Fields): Fields {
    if data == [] then []
    else
      var prop := FindProperty(props, data[0].name);
      (if prop.None? then [] else [Field(data[0].name, KnownValue(prop.value, data[0].value))]) +
      KnownData(props, data[1..])
  }

  /** Whether `_without_defaults` drops a field: its value equals a default in Python's sense. */
  predicate IsDefault(props: seq<PropertySpec>, field: Field) {
    var prop := FindProperty(props, field.name);
    prop.Some? && prop.value.default != Null && PyEq(prop.value.default, field.value)
  }

  /** `_without_defaults`. */
  function WithoutDefaults(props: seq<PropertySpec>, data: Fields): Fields {
    if data == [] then []
    else (if IsDefault(props, data[0]) then [] else [data[0]]) + WithoutDefaults(props, data[1..])
  }

  function Authored(spec: NodeSpec, data: Fields): Fields {
    WithoutDefaults(spec.properties, KnownData(spec.properties, data))
  }

  function KnownEdgeData(data: Fields): Fields {
    if data == [] then []
    else (if data[0].name in EDGE_FIELDS then [data[0]] else []) + KnownEdgeData(data[1..])
  }

  /** `data if isinstance(data, dict) else {}`. */
  function DataOf(v: Value): Fields {
    if v.Dict? then v.fields else []
  }

  // ------------------------------------------------------------ the program

  predicate Truthy(v: Value) {
    match v
    case Null => false
    case Bool(b) => b
    case Int(i) => i != 0
    case Float(r) => r != 0.0
    case Str(s) => s != []
    case List(items) => items != []
    case Tuple(elems) => elems != []
    case Dict(fields) => fields != []
    case Foreign(_, _) => true
  }

  /** The text a variable is named after; `show` is Python's `str` on values other than strings. */
  function DisplayName(show: Value -> string, node: GraphNode): string {
    match Lookup(DataOf(node.data), "name")
    case Some(Str(s)) => if s != [] then s else "node_" + node.id
    case Some(v) => if Truthy(v) then show(v) else "node_" + node.id
    case None => "node_" + node.id
  }

  function Bases(u: Identifiers.Unicode, show: Value -> string, nodes: seq<GraphNode>): (r: seq<string>)
    ensures |r| == |nodes|
    ensures forall i :: 0 <= i < |nodes| ==> r[i] == Identifiers.BaseName(u, DisplayName(show, nodes[i]))
  {
    seq(|nodes|, i requires 0 <= i < |nodes| => Identifiers.BaseName(u, DisplayName(show, nodes[i])))
  }

  /** The last node with a given id: a later node takes over an earlier one's entry. */
  function LastWithId(nodes: seq<GraphNode>, id: string): (r: Option<nat>)
    ensures r.Some? ==> r.value < |nodes| && nodes[r.value].id == id
    ensures r.Some? ==> forall i :: r.value < i < |nodes| ==> nodes[i].id != id
    ensures r.None? ==> forall i :: 0 <= i < |nodes| ==> nodes[i].id != id
  {
    if nodes == [] then None
    else
      var n := |nodes| - 1;
      if nodes[n].id == id then Some(n) else
      assert forall i :: 0 <= i < n ==> nodes[i] == nodes[..n][i];
      LastWithId(nodes[..n], id)
  }

  function Arguments(fields: Fields): (r: seq<Keyword>)
    ensures |r| == |fields|
    ensures forall i :: 0 <= i < |fields| ==> r[i] == Keyword(Some(fields[i].name), Literal(fields[i].value))
  {
    seq(|fields|, i requires 0 <= i < |fields| => Keyword(Some(fields[i].name), Literal(fields[i].value)))
  }

  function Method(name: string): Expr {
    Attribute(Name("workflow"), name)
  }

  function Header(nodes: seq<GraphNode>, workflowName: string): seq<Stmt> {
    [Import] + (if nodes != [] then [Import] else []) +
    [Assign([Name("workflow")], Call(Name("Workflow"), [], [Keyword(Some("name"), Constant(Str(workflowName)))]))]
  }

  function NodeStmt(spec: NodeSpec, node: GraphNode, variable: string): Stmt {
    Assign([Name(variable)],
           Call(Method("add_typed"),
                [Call(Name(ClassName(spec.name, true)), [], Arguments(Authored(spec, DataOf(node.data))))], []))
  }

  function EdgeStmt(edge: GraphEdge, source: string, target: string): Stmt {
    ExprStmt(Call(Method("edge"), [Name(source), Name(target)], Arguments(KnownEdgeData(DataOf(edge.data)))))
  }

  predicate KnownTypes(specs: Registry, nodes: seq<GraphNode>) {
    forall i :: 0 <= i < |nodes| ==> IsType(specs, nodes[i].typ)
  }

  predicate Resolved(nodes: seq<GraphNode>, edge: GraphEdge) {
    LastWithId(nodes, edge.source).Some? && LastWithId(nodes, edge.target).Some?
  }

  predicate AllResolved(graph: Graph) {
    forall i :: 0 <= i < |graph.edges| ==> Resolved(graph.nodes, graph.edges[i])
  }

  function NodeStmts(specs: Registry, nodes: seq<GraphNode>, vars: seq<string>): (r: seq<Stmt>)
    requires |vars| == |nodes| && KnownTypes(specs, nodes)
    ensures |r| == |nodes|
    ensures forall i :: 0 <= i < |nodes| ==> r[i] == NodeStmt(FindSpec(specs, nodes[i].typ).value, nodes[i], vars[i])
  {
    seq(|nodes|, i requires 0 <= i < |nodes| => NodeStmt(FindSpec(specs, nodes[i].typ).value, nodes[i], vars[i]))
  }

  function EdgeStmts(graph: Graph, vars: seq<string>): (r: seq<Stmt>)
    requires |vars| == |graph.nodes| && AllResolved(graph)
    ensures |r| == |graph.edges|
    ensures forall i :: 0 <= i < |graph.edges| ==>
                          r[i] == EdgeStmt(graph.edges[i],
                                           vars[LastWithId(graph.nodes, graph.edges[i].source).value],
                                           vars[LastWithId(graph.nodes, graph.edges[i].target).value])
  {
    seq(|graph.edges|, i requires 0 <= i < |graph.edges| =>
      EdgeStmt(graph.edges[i],
               vars[LastWithId(graph.nodes, graph.edges[i].source).value],
               vars[LastWithId(graph.nodes, graph.edges[i].target).value]))
  }

  /** The program for a graph whose node `i` is bound to `vars[i]`. */
  function Program(specs: Registry, graph: Graph, workflowName: string, vars: seq<string>): seq<Stmt>
    requires |vars| == |graph.nodes| && KnownTypes(specs, graph.nodes) && AllResolved(graph)
  {
    Header(graph.nodes, workflowName) + NodeStmts(specs, graph.nodes, vars) + EdgeStmts(graph, vars)
  }

  datatype Generated = Source(stmts: seq<Stmt>) | UnknownNodeType | DanglingEdge(edge: string)

  /** The `variables` dictionary: each node id gives the variable of the last such node. */
  ghost predicate BoundTo(variables: map<string, string>, nodes: seq<GraphNode>, vars: seq<string>)
    requires |nodes| <= |vars|
  {
    && (forall id :: id in variables <==> LastWithId(nodes, id).Some?)
    && (forall id :: id in variables ==> variables[id] == vars[LastWithId(nodes, id).value])
  }

  lemma BoundToNext(variables: map<string, string>, nodes: seq<GraphNode>, vars: seq<string>, i: nat)
    requires |nodes| <= |vars| && i < |nodes| && BoundTo(variables, nodes[..i], vars)
    ensures BoundTo(variables[nodes[i].id := vars[i]], nodes[..i + 1], vars)
  {
    assert nodes[..i + 1][..i] == nodes[..i];
    assert nodes[..i + 1][i] == nodes[i];
  }

  lemma PrefixNext(stmts: seq<Stmt>, i: nat)
    requires i < |stmts|
    ensures stmts[..i + 1] == stmts[..i] + [stmts[i]]
  {}

  /** The node loop of `generate_code`. */
  method BindNodes(specs: Registry, nodes: seq<GraphNode>, bases: seq<string>)
    returns (lines: seq<Stmt>, variables: map<string, string>)
    requires KnownTypes(specs, nodes) && |bases| == |nodes|
    ensures var vars := Identifiers.Variables(bases);
            lines == NodeStmts(specs, nodes, vars) && BoundTo(variables, nodes, vars)
  {
    ghost var vars := Identifiers.Variables(bases);
    lines, variables := [], map[];
    var used: set<string> := {};
    for i := 0 to |nodes|
      invariant used == Identifiers.Used(vars[..i])
      invariant BoundTo(variables, nodes[..i], vars)
      invariant lines == NodeStmts(specs, nodes, vars)[..i]
    {
      var node := nodes[i];
      var variable;
      VariableAt(bases, i);
      variable, used := Identifiers.Identifier(bases[i], used);
      Identifiers.UsedGrows(vars, i);
      BoundToNext(variables, nodes, vars, i);
      PrefixNext(NodeStmts(specs, nodes, vars), i);
      variables := variables[node.id := variable];
      lines := lines + [NodeStmt(FindSpec(specs, node.typ).value, node, variable)];
    }
    assert nodes[..|nodes|] == nodes;
  }

  predicate Bound(variables: map<string, string>, edge: GraphEdge) {
    edge.source in variables && edge.target in variables
  }

  lemma BoundEdge(variables: map<string, string>, nodes: seq<GraphNode>, vars: seq<string>, edge: GraphEdge)
    requires |vars| == |nodes| && BoundTo(variables, nodes, vars)
    ensures Bound(variables, edge) <==> Resolved(nodes, edge)
    ensures Resolved(nodes, edge) ==> variables[edge.source] == vars[LastWithId(nodes, edge.source).value]
    ensures Resolved(nodes, edge) ==> variables[edge.target] == vars[LastWithId(nodes, edge.target).value]
  {}

  /** The edge loop of `generate_code`. */
  method EdgeLines(edges: seq<GraphEdge>, variables: map<string, string>) returns (r: Generated)
    ensures r.Source? ==> |r.stmts| == |edges|
    ensures r.Source? ==> forall i :: 0 <= i < |edges| ==>
              Bound(variables, edges[i]) &&
              r.stmts[i] == EdgeStmt(edges[i], variables[edges[i].source], variables[edges[i].target])
    ensures !r.Source? ==>
            exists k :: 0 <= k < |edges| && r == DanglingEdge(edges[k].id) && !Bound(variables, edges[k]) &&
                                       forall j :: 0 <= j < k ==> Bound(variables, edges[j])
  {
    var lines := [];
    for i := 0 to |edges|
      invariant |lines| == i
      invariant forall j :: 0 <= j < i ==>
                  Bound(variables, edges[j]) &&
                  lines[j] == EdgeStmt(edges[j], variables[edges[j].source], variables[edges[j].target])
    {
      var edge := edges[i];
      if edge.source !in variables || edge.target !in variables {
        return DanglingEdge(edge.id);
      }
      lines := lines + [EdgeStmt(edge, variables[edge.source], variables[edge.target])];
    }
    r := Source(lines);
  }

  method PrintEdges(graph: Graph, variables: map<string, string>, ghost vars: seq<string>)
    returns (r: Generated)
    requires |vars| == |graph.nodes| && BoundTo(variables, graph.nodes, vars)
    ensures r.Source? <==> AllResolved(graph)
    ensures r.Source? ==> r.stmts == EdgeStmts(graph, vars)
    ensures !r.UnknownNodeType?
    ensures r.DanglingEdge? ==> IsFirstDangling(graph, r.edge)
  {
    r := EdgeLines(graph.edges, variables);
    forall i | 0 <= i < |graph.edges|
      ensures Bound(variables, graph.edges[i]) <==> Resolved(graph.nodes, graph.edges[i])
      ensures Resolved(graph.nodes, graph.edges[i]) ==>
                variables[graph.edges[i].source] == vars[LastWithId(graph.nodes, graph.edges[i].source).value] &&
                variables[graph.edges[i].target] == vars[LastWithId(graph.nodes, graph.edges[i].target).value]
    {
      BoundEdge(variables, graph.nodes, vars, graph.edges[i]);
    }
  }

  ghost predicate IsFirstDangling(graph: Graph, id: string) {
    exists k :: 0 <= k < |graph.edges| && id == graph.edges[k].id && !Resolved(graph.nodes, graph.edges[k]) &&
                forall j :: 0 <= j < k ==> Resolved(graph.nodes, graph.edges[j])
  }

  /** `generate_code`: fails exactly on an unknown node type or, failing that, on the first
      edge with an unknown endpoint; otherwise prints the program under fresh variables. */
  method GenerateCode(u: Identifiers.Unicode, show: Value -> string, specs: Registry, graph: Graph,
                      workflowName: string) returns (r: Generated)
    ensures r.UnknownNodeType? <==> !KnownTypes(specs, graph.nodes)
    ensures r.Source? <==> KnownTypes(specs, graph.nodes) && AllResolved(graph)
    ensures r.DanglingEdge? ==> IsFirstDangling(graph, r.edge)
    ensures r.Source? ==>
              r.stmts == Program(specs, graph, workflowName, Identifiers.Variables(Bases(u, show, graph.nodes)))
  {
    if i :| 0 <= i < |graph.nodes| && FindSpec(specs, graph.nodes[i].typ).None? {
      return UnknownNodeType;
    }
    var nodeLines, variables := BindNodes(specs, graph.nodes, Bases(u, show, graph.nodes));
    r := PrintEdges(graph, variables, Identifiers.Variables(Bases(u, show, graph.nodes)));
    if r.Source? {
      r := Source(Header(graph.nodes, workflowName) + nodeLines + r.stmts);
    }
  }

  lemma {:induction false} VariableAt(bases: seq<string>, i: nat)
    requires i < |bases|
    ensures Identifiers.Variables(bases)[i] ==
            Identifiers.FirstFree(bases[i], Identifiers.Used(Identifiers.Variables(bases)[..i]))
  {
    Identifiers.FirstFreeInVariables(bases, i);
    VariablesPrefix(bases, i);
  }

  lemma {:induction false} VariablesPrefix(bases: seq<string>, n: nat)
    requires n <= |bases|
    ensures Identifiers.Variables(bases)[..n] == Identifiers.Variables(bases[..n])
  {
    if n < |bases| {
      var m := |bases| - 1;
      VariablesPrefix(bases[..m], n);
      assert bases[..m][..n] == bases[..n];
    } else {
      assert bases[..n] == bases;
    }
  }
}
