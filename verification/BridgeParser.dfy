/** The parser half of the Python bridge: the accepted subset of Python becomes a graph
    (`api/mcp_server/python_bridge.py:139-168, 252-420`). */
module BridgeParser {
  import opened Optional
  import opened PyValues
  import opened NodeSpecs
  import opened PySource
  import opened Bridge
  import opened Text

  datatype ParseError =
    | DictionaryExpansion | DuplicateKeyword(arg: string) | NotLiteral | StarredArgument
    | BareStatementNotEdge | EdgeNeedsTwoVariables | EdgeUnknownVariable | EdgeUnknownField
    | EdgeLabelMissing | EdgeConditionMissing
    | NotAllowedAtTopLevel | BindingNotACall
    | SecondWorkflow | WorkflowPositional | WorkflowArguments
    | NodeConstructorMissing | UnknownNodeClass | ConstructorPositional | AddTypedKeyword
    | AddPositional | UnknownType | NoWorkflowYet | BadPosition
    | NoWorkflow
    | InvalidNode(typ: string, error: DataError)

  datatype Result<+T> = Ok(value: T) | Error(error: ParseError)

  // -------------------------------------------------------------- pieces of calls

  /** The keyword loop of `_keywords`. */
  function KeywordValues(keywords: seq<Keyword>): Result<Fields> {
    if keywords == [] then Ok([])
    else
      var init := KeywordValues(keywords[..|keywords| - 1]);
      var kw := keywords[|keywords| - 1];
      if init.Error? then init
      else if kw.arg.None? then Error(DictionaryExpansion)
      else if Lookup(init.value, kw.arg.value).Some? then Error(DuplicateKeyword(kw.arg.value))
      else
        var v := LiteralEval(kw.value);
        if v.None? then Error(NotLiteral) else Ok(init.value + [Field(kw.arg.value, v.value)])
  }

  /** `_keywords`. */
  function Keywords(args: seq<Expr>, keywords: seq<Keyword>): Result<Fields> {
    var values := KeywordValues(keywords);
    if values.Ok? && exists i :: 0 <= i < |args| && args[i].Starred? then Error(StarredArgument) else values
  }

  /** `_workflow_method`: before the workflow is bound, any receiver is accepted. */
  function WorkflowMethod(func: Expr, workflowVar: Option<string>): Option<string> {
    match func
    case Attribute(Name(id), attr) =>
      if workflowVar.Some? && id != workflowVar.value then None else Some(attr)
    case _ => None
  }

  predicate IsFilledText(v: Option<Value>) {
    v.Some? && v.value.Str? && !IsBlank(v.value.s)
  }

  predicate Within(fields: Fields, names: set<string>) {
    forall i :: 0 <= i < |fields| ==> fields[i].name in names
  }

  function Without(fields: Fields, name: string): (r: Fields)
    ensures forall i :: 0 <= i < |r| ==> r[i].name != name && exists j :: 0 <= j < |fields| && fields[j] == r[i]
  {
    if fields == [] then []
    else
      var rest := Without(fields[1..], name);
      assert forall j :: 0 < j < |fields| ==> fields[j] == fields[1..][j - 1];
      if fields[0].name == name then rest else [fields[0]] + rest
  }

  predicate IsCoordinate(v: Value) {
    v.Int? || v.Float?
  }

  /** The optional `position` keyword: two numbers in a list or tuple. */
  function PositionOf(raw: Option<Value>): Result<(real, real)> {
    if raw.None? || raw.value == Null then Ok((0.0, 0.0))
    else
      var parts := match raw.value case List(xs) => xs case Tuple(xs) => xs case _ => [];
      if |parts| != 2 || !IsCoordinate(parts[0]) || !IsCoordinate(parts[1]) then Error(BadPosition)
      else Ok((NumericValue(parts[0]), NumericValue(parts[1])))
  }

  /** `types_by_class.get(name)`: a later type takes over an earlier one's class name. */
  function TypeOfClass(specs: Registry, name: string): (r: Option<string>)
    ensures r.Some? ==> IsType(specs, r.value)
  {
    if specs == [] then None
    else
      var n := |specs| - 1;
      if ClassName(specs[n].name, true) == name then Some(specs[n].name)
      else
        var r := TypeOfClass(specs[..n], name);
        assert r.Some? ==> exists i :: 0 <= i < n && specs[..n][i].name == r.value && specs[i] == specs[..n][i];
        r
  }

  // ------------------------------------------------------------------- statements

  datatype NodeCall = NodeCall(typ: string, x: real, y: real, data: Fields)

  function AddTyped(specs: Registry, args: seq<Expr>, keywords: seq<Keyword>): (r: Result<NodeCall>)
    ensures r.Ok? ==> IsType(specs, r.value.typ)
  {
    if |args| != 1 || !args[0].Call? then Error(NodeConstructorMissing)
    else
      var made := args[0];
      var typ := if made.func.Name? then TypeOfClass(specs, made.func.id) else None;
      if typ.None? then Error(UnknownNodeClass)
      else if made.args != [] then Error(ConstructorPositional)
      else
        var data := Keywords([], made.keywords);
        if data.Error? then Error(data.error)
        else
          var options := Keywords(args, keywords);
          if options.Error? then Error(options.error)
          else if !Within(options.value, {"position"}) then Error(AddTypedKeyword)
          else
            var position := PositionOf(Lookup(options.value, "position"));
            if position.Error? then Error(position.error)
            else Ok(NodeCall(typ.value, position.value.0, position.value.1, data.value))
  }

  function Add(specs: Registry, args: seq<Expr>, keywords: seq<Keyword>): (r: Result<NodeCall>)
    ensures r.Ok? ==> IsType(specs, r.value.typ)
  {
    if args != [] then Error(AddPositional)
    else
      var values := Keywords(args, keywords);
      if values.Error? then Error(values.error)
      else
        var typ := Lookup(values.value, "type");
        if typ.None? || !typ.value.Str? || !IsType(specs, typ.value.s) then Error(UnknownType)
        else
          var position := PositionOf(Lookup(values.value, "position"));
          if position.Error? then Error(position.error)
          else Ok(NodeCall(typ.value.s, position.value.0, position.value.1,
                           Without(Without(values.value, "type"), "position")))
  }

  function NodeBinding(specs: Registry, workflowVar: Option<string>, call: Expr): (r: Result<NodeCall>)
    requires call.Call?
    ensures r.Ok? ==> IsType(specs, r.value.typ)
  {
    match WorkflowMethod(call.func, workflowVar)
    case Some("add_typed") => AddTyped(specs, call.args, call.keywords)
    case Some("add") => Add(specs, call.args, call.keywords)
    case _ => Error(NoWorkflowYet)
  }

  /** A `Workflow(...)` binding; the result is the workflow's name. */
  function WorkflowBinding(workflowVar: Option<string>, call: Expr): Result<string>
    requires call.Call?
  {
    if workflowVar.Some? then Error(SecondWorkflow)
    else if call.args != [] then Error(WorkflowPositional)
    else
      var values := Keywords(call.args, call.keywords);
      if values.Error? then Error(values.error)
      else
        var name := Lookup(values.value, "name");
        if !Within(values.value, {"name", "description"}) || (name.Some? && !name.value.Str?)
        then Error(WorkflowArguments)
        else Ok(if name.Some? then name.value.s else "")
  }

  function EdgeCall(references: map<string, string>, workflowVar: Option<string>, call: Expr): Result<GraphEdge>
    requires call.Call?
  {
    if WorkflowMethod(call.func, workflowVar) != Some("edge") then Error(BareStatementNotEdge)
    else if |call.args| != 2 || !call.args[0].Name? || !call.args[1].Name? then Error(EdgeNeedsTwoVariables)
    else if call.args[0].id !in references || call.args[1].id !in references then Error(EdgeUnknownVariable)
    else
      var source, target := references[call.args[0].id], references[call.args[1].id];
      var options := Keywords(call.args, call.keywords);
      if options.Error? then Error(options.error)
      else if !Within(options.value, EDGE_FIELDS) then Error(EdgeUnknownField)
      else if !IsFilledText(Lookup(options.value, "label")) then Error(EdgeLabelMissing)
      else if !IsFilledText(Lookup(options.value, "condition")) then Error(EdgeConditionMissing)
      else Ok(GraphEdge(source + "-" + target, source, target, Dict(options.value)))
  }

  /** The local variables of `parse_code`. */
  datatype State = State(
    errors: seq<ParseError>,
    nodes: seq<GraphNode>,
    edges: seq<GraphEdge>,
    references: map<string, string>,
    workflowVar: Option<string>,
    workflowName: string)
  {
    function Fail(error: ParseError): State {
      this.(errors := errors + [error])
    }

    function AddEdge(edge: Result<GraphEdge>): State {
      if edge.Ok? then this.(edges := edges + [edge.value]) else Fail(edge.error)
    }

    function BindWorkflow(variable: string, name: Result<string>): State {
      if name.Ok? then this.(workflowVar := Some(variable), workflowName := name.value) else Fail(name.error)
    }

    function BindNode(variable: string, node: Result<NodeCall>): State {
      if node.Error? then Fail(node.error)
      else
        var id := Decimal(|nodes| + 1);
        this.(nodes := nodes + [GraphNode(id, node.value.typ, node.value.x, node.value.y, Dict(node.value.data))],
              references := references[variable := id])
    }
  }

  const START := State([], [], [], map[], None, "")

  /** One turn of the statement loop. */
  function Step(specs: Registry, st: State, s: Stmt): State {
    match s
    case Import => st
    case ExprStmt(call) =>
      if call.Call? then st.AddEdge(EdgeCall(st.references, st.workflowVar, call)) else st.Fail(NotAllowedAtTopLevel)
    case Assign(targets, value) =>
      if |targets| != 1 || !targets[0].Name? then st.Fail(NotAllowedAtTopLevel)
      else if !value.Call? then st.Fail(BindingNotACall)
      else if value.func == Name("Workflow") then
        st.BindWorkflow(targets[0].id, WorkflowBinding(st.workflowVar, value))
      else st.BindNode(targets[0].id, NodeBinding(specs, st.workflowVar, value))
    case OtherStmt => st.Fail(NotAllowedAtTopLevel)
  }

  function Steps(step: (State, Stmt) -> State, st: State, stmts: seq<Stmt>): State {
    if stmts == [] then st else step(Steps(step, st, stmts[..|stmts| - 1]), stmts[|stmts| - 1])
  }

  function Stepper(specs: Registry): (State, Stmt) -> State {
    (st, s) => Step(specs, st, s)
  }

  /** The statement loop over a whole module. */
  function Run(specs: Registry, stmts: seq<Stmt>): State {
    Steps(Stepper(specs), START, stmts)
  }

  lemma StepsSnoc(step: (State, Stmt) -> State, st: State, stmts: seq<Stmt>, k: nat)
    requires 0 < k <= |stmts|
    ensures Steps(step, st, stmts[..k]) == step(Steps(step, st, stmts[..k - 1]), stmts[k - 1])
  {
    assert stmts[..k][..k - 1] == stmts[..k - 1];
  }

  lemma {:induction false} StepsConcat(step: (State, Stmt) -> State, st: State, a: seq<Stmt>, b: seq<Stmt>)
    ensures Steps(step, st, a + b) == Steps(step, Steps(step, st, a), b)
  {
    if b == [] {
      assert a + b == a;
    } else {
      assert (a + b)[..|a + b| - 1] == a + b[..|b| - 1];
      StepsConcat(step, st, a, b[..|b| - 1]);
    }
  }

  // -------------------------------------------------------------------- validation

  datatype Stage = Parse | Validate

  datatype ParseResult = Parsed(graph: Graph, name: string) | Rejected(stage: Stage, errors: seq<ParseError>)

  function Checked(specs: Registry, node: GraphNode): Validated
    requires IsType(specs, node.typ)
  {
    ValidateData(FindSpec(specs, node.typ).value, DataOf(node.data))
  }

  /** The verdict on every node. */
  function CheckAll(specs: Registry, nodes: seq<GraphNode>): (r: seq<Validated>)
    requires KnownTypes(specs, nodes)
    ensures |r| == |nodes|
    ensures forall i :: 0 <= i < |nodes| ==> r[i] == Checked(specs, nodes[i])
  {
    seq(|nodes|, i requires 0 <= i < |nodes| => Checked(specs, nodes[i]))
  }

  function NodeErrors(nodes: seq<GraphNode>, checks: seq<Validated>): seq<ParseError>
    requires |checks| == |nodes|
  {
    if nodes == [] then []
    else
      var n := |nodes| - 1;
      NodeErrors(nodes[..n], checks[..n]) +
      if checks[n].Invalid? then [InvalidNode(nodes[n].typ, checks[n].error)] else []
  }

  function WithChecked(node: GraphNode, checked: Validated): GraphNode {
    if checked.Valid? then node.(data := Dict(checked.fields)) else node
  }

  function WithAllChecked(nodes: seq<GraphNode>, checks: seq<Validated>): (r: seq<GraphNode>)
    requires |checks| == |nodes|
    ensures |r| == |nodes|
    ensures forall i :: 0 <= i < |nodes| ==> r[i] == WithChecked(nodes[i], checks[i])
  {
    seq(|nodes|, i requires 0 <= i < |nodes| => WithChecked(nodes[i], checks[i]))
  }

  /** The outcome once the statement loop has found no error. */
  function Checkout(nodes: seq<GraphNode>, edges: seq<GraphEdge>, name: string, checks: seq<Validated>): ParseResult
    requires |checks| == |nodes|
  {
    var errors := NodeErrors(nodes, checks);
    if errors != [] then Rejected(Validate, errors)
    else Parsed(Graph(WithAllChecked(nodes, checks), edges), name)
  }

  /** Everything after the statement loop. */
  function Finish(specs: Registry, st: State): ParseResult
    requires KnownTypes(specs, st.nodes)
  {
    if st.errors != [] then Rejected(Parse, st.errors)
    else if st.workflowVar.None? then Rejected(Parse, [NoWorkflow])
    else Checkout(st.nodes, st.edges, st.workflowName, CheckAll(specs, st.nodes))
  }

  lemma StepKnowsTypes(specs: Registry, st: State, s: Stmt)
    requires KnownTypes(specs, st.nodes)
    ensures KnownTypes(specs, Step(specs, st, s).nodes)
  {}

  lemma {:induction false} RunKnowsTypes(specs: Registry, stmts: seq<Stmt>)
    ensures KnownTypes(specs, Run(specs, stmts).nodes)
  {
    if stmts == [] {
    } else {
      RunKnowsTypes(specs, stmts[..|stmts| - 1]);
      StepKnowsTypes(specs, Run(specs, stmts[..|stmts| - 1]), stmts[|stmts| - 1]);
    }
  }

  function ParseSource(specs: Registry, stmts: seq<Stmt>): ParseResult {
    RunKnowsTypes(specs, stmts);
    Finish(specs, Run(specs, stmts))
  }

  /** `parse_code`, from the parsed module on. */
  method ParseCode(specs: Registry, stmts: seq<Stmt>) returns (r: ParseResult)
    ensures r == ParseSource(specs, stmts)
  {
    var errors, nodes, edges := [], [], [];
    var references: map<string, string> := map[];
    var workflowVar: Option<string> := None;
    var workflowName := "";
    for i := 0 to |stmts|
      invariant State(errors, nodes, edges, references, workflowVar, workflowName) == Run(specs, stmts[..i])
    {
      assert stmts[..i + 1][..i] == stmts[..i];
      match stmts[i] {
        case Import =>
        case ExprStmt(call) =>
          if call.Call? {
            var edge := EdgeCall(references, workflowVar, call);
            if edge.Ok? {
              edges := edges + [edge.value];
            } else {
              errors := errors + [edge.error];
            }
          } else {
            errors := errors + [NotAllowedAtTopLevel];
          }
        case Assign(targets, value) =>
          if |targets| != 1 || !targets[0].Name? {
            errors := errors + [NotAllowedAtTopLevel];
          } else if !value.Call? {
            errors := errors + [BindingNotACall];
          } else if value.func == Name("Workflow") {
            var name := WorkflowBinding(workflowVar, value);
            if name.Ok? {
              workflowVar, workflowName := Some(targets[0].id), name.value;
            } else {
              errors := errors + [name.error];
            }
          } else {
            var node := NodeBinding(specs, workflowVar, value);
            if node.Ok? {
              var id := Decimal(|nodes| + 1);
              nodes := nodes + [GraphNode(id, node.value.typ, node.value.x, node.value.y, Dict(node.value.data))];
              references := references[targets[0].id := id];
            } else {
              errors := errors + [node.error];
            }
          }
        case OtherStmt =>
          errors := errors + [NotAllowedAtTopLevel];
      }
    }
    assert stmts[..|stmts|] == stmts;
    RunKnowsTypes(specs, stmts);
    if errors != [] {
      return Rejected(Parse, errors);
    }
    if workflowVar.None? {
      return Rejected(Parse, [NoWorkflow]);
    }
    r := ValidateNodes(nodes, edges, workflowName, CheckAll(specs, nodes));
  }

  /** The validation loop of `parse_code`, given the verdict on every node. */
  method ValidateNodes(nodes: seq<GraphNode>, edges: seq<GraphEdge>, workflowName: string, checks: seq<Validated>)
    returns (r: ParseResult)
    requires |checks| == |nodes|
    ensures r == Checkout(nodes, edges, workflowName, checks)
  {
    var errors, valid := [], nodes;
    for i := 0 to |nodes|
      invariant errors == NodeErrors(nodes[..i], checks[..i])
      invariant |valid| == |nodes|
      invariant forall k :: 0 <= k < |nodes| ==>
                valid[k] == if k < i then WithChecked(nodes[k], checks[k]) else nodes[k]
    {
      assert nodes[..i + 1][..i] == nodes[..i] && checks[..i + 1][..i] == checks[..i];
      if checks[i].Invalid? {
        errors := errors + [InvalidNode(nodes[i].typ, checks[i].error)];
      } else {
        valid := valid[i := nodes[i].(data := Dict(checks[i].fields))];
      }
    }
    assert nodes[..|nodes|] == nodes && checks[..|nodes|] == checks;
    r := if errors != [] then Rejected(Validate, errors) else Parsed(Graph(valid, edges), workflowName);
  }
}
