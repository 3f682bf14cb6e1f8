/** What every accepted program guarantees, whoever wrote it. */
module BridgeSoundness {
  import opened Optional
  import opened PyValues
  import opened NodeSpecs
  import opened PySource
  import opened Bridge
  import opened BridgeParser
  import opened BridgeRoundTrip
  import opened Text

  /** `data` is `authored` with defaults added for absent properties, and nothing else. */
  ghost predicate OnlyDefaultsAdded(spec: NodeSpec, authored: Fields, data: Fields) {
    && UniqueNames(data)
    && (forall i :: 0 <= i < |authored| ==> Lookup(data, authored[i].name) == Lookup(authored, authored[i].name))
    && forall i :: 0 <= i < |data| ==>
                     Lookup(authored, data[i].name) == Some(data[i].value) ||
                     (Lookup(authored, data[i].name).None? &&
                      HasName(spec.properties, data[i].name) &&
                      FindProperty(spec.properties, data[i].name).value.default == data[i].value)
  }

  /** The data satisfies its specification, recursively, and validating it changes nothing. */
  ghost predicate FullyValid(spec: NodeSpec, data: Fields) {
    && (forall i :: 0 <= i < |data| ==> HasName(spec.properties, data[i].name))
    && (forall k :: 0 <= k < |spec.properties| ==>
                      match Lookup(data, spec.properties[k].name)
                      case None => !spec.properties[k].required && spec.properties[k].default == Null
                      case Some(v) => Conforms(spec.properties[k], v))
    && ValidateData(spec, data) == Valid(data)
  }

  lemma CollectedDeclared(spec: NodeSpec, authored: Fields, i: nat)
    requires DistinctProperties(spec.properties)
    requires i < |Collect(spec.properties, p => Filled(p, authored))|
    ensures var f := Collect(spec.properties, p => Filled(p, authored))[i];
            HasName(spec.properties, f.name) &&
            Filled(FindProperty(spec.properties, f.name).value, authored) == Some(f.value)
  {
    CollectNames(spec.properties, p => Filled(p, authored), i);
    var f := Collect(spec.properties, p => Filled(p, authored))[i];
    var k :| 0 <= k < |spec.properties| && spec.properties[k].name == f.name &&
             Filled(spec.properties[k], authored) == Some(f.value);
    FindPropertyAt(spec.properties, k);
  }

  lemma ValidatedAddsDefaults(spec: NodeSpec, authored: Fields, data: Fields)
    requires DistinctProperties(spec.properties) && ValidateData(spec, authored) == Valid(data)
    ensures OnlyDefaultsAdded(spec, authored, data)
  {
    ValidateMeaning(spec, authored);
    var fill := (p: PropertySpec) => Filled(p, authored);
    CollectUnique(spec.properties, fill);
    forall i | 0 <= i < |authored|
      ensures Lookup(data, authored[i].name) == Lookup(authored, authored[i].name)
    {
      var k :| 0 <= k < |spec.properties| && spec.properties[k].name == authored[i].name;
      LookupCollect(spec.properties, fill, k);
    }
    forall i | 0 <= i < |data|
      ensures Lookup(authored, data[i].name) == Some(data[i].value) ||
              (Lookup(authored, data[i].name).None? && HasName(spec.properties, data[i].name) &&
               FindProperty(spec.properties, data[i].name).value.default == data[i].value)
    {
      CollectedDeclared(spec, authored, i);
    }
  }

  lemma ValidatedIsFullyValid(spec: NodeSpec, authored: Fields, data: Fields)
    requires DistinctProperties(spec.properties) && ValidateData(spec, authored) == Valid(data)
    ensures FullyValid(spec, data)
  {
    var props := spec.properties;
    ValidateMeaning(spec, authored);
    forall i | 0 <= i < |data| ensures HasName(props, data[i].name) {
      CollectedDeclared(spec, authored, i);
    }
    forall k | 0 <= k < |props|
      ensures Lookup(data, props[k].name) == Filled(props[k], authored)
      ensures Filled(props[k], data) == Filled(props[k], authored)
    {
      LookupCollect(props, p => Filled(p, authored), k);
    }
    ValidateMeaning(spec, data);
    BridgeDataAgree(props, data, authored);
  }

  lemma {:induction false} BridgeDataAgree(props: seq<PropertySpec>, a: Fields, b: Fields)
    requires forall k :: 0 <= k < |props| ==> Filled(props[k], a) == Filled(props[k], b)
    ensures Collect(props, p => Filled(p, a)) == Collect(props, p => Filled(p, b))
  {
    if props == [] {
    } else {
      BridgeDataAgree(props[..|props| - 1], a, b);
    }
  }

  // ------------------------------------------------------- the statement loop

  /** Some listed node has this id. */
  ghost predicate Listed(count: nat, id: string) {
    exists n: nat :: 1 <= n <= count && id == Decimal(n)
  }

  ghost predicate SoundEdge(count: nat, edge: GraphEdge) {
    && Listed(count, edge.source) && Listed(count, edge.target)
    && edge.id == edge.source + "-" + edge.target
    && edge.data.Dict? && Within(edge.data.fields, EDGE_FIELDS) && Labelled(edge)
  }

  /** What the local variables of the parser satisfy after every statement. */
  ghost predicate SoundState(specs: Registry, st: State) {
    && (forall i :: 0 <= i < |st.nodes| ==>
                      st.nodes[i].id == Decimal(i + 1) && IsType(specs, st.nodes[i].typ) && st.nodes[i].data.Dict?)
    && (forall v :: v in st.references ==> Listed(|st.nodes|, st.references[v]))
    && forall i :: 0 <= i < |st.edges| ==> SoundEdge(|st.nodes|, st.edges[i])
  }

  lemma ListedLonger(m: nat, n: nat, id: string)
    requires m <= n && Listed(m, id)
    ensures Listed(n, id)
  {
    var k: nat :| 1 <= k <= m && id == Decimal(k);
  }

  lemma EdgeCallSound(references: map<string, string>, workflowVar: Option<string>, call: Expr, count: nat)
    requires call.Call? && forall v :: v in references ==> Listed(count, references[v])
    ensures var r := EdgeCall(references, workflowVar, call);
            r.Ok? ==> SoundEdge(count, r.value)
  {}

  lemma AddEdgeSound(specs: Registry, st: State, edge: Result<GraphEdge>)
    requires SoundState(specs, st) && (edge.Ok? ==> SoundEdge(|st.nodes|, edge.value))
    ensures SoundState(specs, st.AddEdge(edge))
  {}

  lemma BindNodeSound(specs: Registry, st: State, variable: string, node: Result<NodeCall>)
    requires SoundState(specs, st) && (node.Ok? ==> IsType(specs, node.value.typ))
    ensures SoundState(specs, st.BindNode(variable, node))
  {
    if node.Ok? {
      var n := |st.nodes|;
      var st' := st.BindNode(variable, node);
      assert Listed(n + 1, Decimal(n + 1));
      forall v | v in st'.references ensures Listed(n + 1, st'.references[v]) {
        if v != variable {
          ListedLonger(n, n + 1, st.references[v]);
        }
      }
      forall i | 0 <= i < |st.edges| ensures SoundEdge(n + 1, st.edges[i]) {
        ListedLonger(n, n + 1, st.edges[i].source);
        ListedLonger(n, n + 1, st.edges[i].target);
      }
    }
  }

  lemma {:induction false} StepSound(specs: Registry, st: State, s: Stmt)
    requires SoundState(specs, st)
    ensures SoundState(specs, Step(specs, st, s))
  {
    match s
    case Import =>
    case OtherStmt =>
    case ExprStmt(call) =>
      if call.Call? {
        EdgeCallSound(st.references, st.workflowVar, call, |st.nodes|);
        AddEdgeSound(specs, st, EdgeCall(st.references, st.workflowVar, call));
      }
    case Assign(targets, value) =>
      if |targets| == 1 && targets[0].Name? && value.Call? && value.func != Name("Workflow") {
        BindNodeSound(specs, st, targets[0].id, NodeBinding(specs, st.workflowVar, value));
      }
  }

  lemma {:induction false} StepsSound(specs: Registry, stmts: seq<Stmt>)
    ensures SoundState(specs, Run(specs, stmts))
  {
    if stmts == [] {
    } else {
      StepsSound(specs, stmts[..|stmts| - 1]);
      StepSound(specs, Run(specs, stmts[..|stmts| - 1]), stmts[|stmts| - 1]);
    }
  }

  /** What an accepted node satisfies, given the node as authored. */
  ghost predicate SoundNode(specs: Registry, authored: GraphNode, node: GraphNode) {
    && node.id == authored.id && node.typ == authored.typ && IsType(specs, node.typ) && node.data.Dict?
    && FullyValid(FindSpec(specs, node.typ).value, node.data.fields)
    && OnlyDefaultsAdded(FindSpec(specs, node.typ).value, DataOf(authored.data), node.data.fields)
  }

  lemma CheckedNodeSound(specs: Registry, node: GraphNode)
    requires GoodRegistry(specs) && IsType(specs, node.typ) && Checked(specs, node).Valid?
    ensures SoundNode(specs, node, WithChecked(node, Checked(specs, node)))
  {
    var spec := FindSpec(specs, node.typ).value;
    var k :| 0 <= k < |specs| && specs[k] == spec;
    ValidatedAddsDefaults(spec, DataOf(node.data), Checked(specs, node).fields);
    ValidatedIsFullyValid(spec, DataOf(node.data), Checked(specs, node).fields);
  }

  /** What an accepted graph satisfies, given the nodes as authored. */
  ghost predicate SoundGraph(specs: Registry, authored: seq<GraphNode>, graph: Graph) {
    && |graph.nodes| == |authored|
    && (forall i :: 0 <= i < |graph.nodes| ==>
                      graph.nodes[i].id == Decimal(i + 1) && SoundNode(specs, authored[i], graph.nodes[i]))
    && forall i :: 0 <= i < |graph.edges| ==> SoundEdge(|graph.nodes|, graph.edges[i])
  }

  lemma {:induction false} FinishSound(specs: Registry, st: State)
    requires GoodRegistry(specs) && SoundState(specs, st) && KnownTypes(specs, st.nodes)
    ensures var r := Finish(specs, st);
            r.Parsed? ==> st.workflowVar.Some? && r.name == st.workflowName && SoundGraph(specs, st.nodes, r.graph)
  {
    var checks := CheckAll(specs, st.nodes);
    if st.errors == [] && st.workflowVar.Some? {
      CheckoutMeaning(st.nodes, st.edges, st.workflowName, checks);
      forall i | 0 <= i < |st.nodes| && checks[i].Valid?
        ensures SoundNode(specs, st.nodes[i], WithChecked(st.nodes[i], checks[i]))
      {
        CheckedNodeSound(specs, st.nodes[i]);
      }
    }
  }

  /** Soundness: every accepted program, in any style the parser allows, yields nodes numbered
      "1" to "n" of known types whose data satisfies its specification and differs from the
      authored data only by added defaults, and edges between listed nodes with a label and
      a condition. */
  lemma {:induction false} AcceptedIsSound(specs: Registry, stmts: seq<Stmt>)
    requires GoodRegistry(specs)
    ensures var r := ParseSource(specs, stmts);
            r.Parsed? ==> SoundGraph(specs, Run(specs, stmts).nodes, r.graph)
  {
    StepsSound(specs, stmts);
    RunKnowsTypes(specs, stmts);
    FinishSound(specs, Run(specs, stmts));
  }
}
