/** The part of Python's syntax tree that the bridge looks at, and its literal evaluation.

    Source text is represented by the tree `ast.parse` builds from it. A negative number is
    a unary minus applied to a constant, as in Python (Python Language Reference, section 2.4). */
module PySource {
  import opened Optional
  import opened PyValues

  datatype Expr =
    | Name(id: string)
    | Constant(value: Value)
    | Minus(operand: Expr)
    | ListExpr(items: seq<Expr>)
    | TupleExpr(elems: seq<Expr>)
    | DictExpr(entries: seq<DictItem>)
    | Attribute(object: Expr, attr: string)
    | Call(func: Expr, args: seq<Expr>, keywords: seq<Keyword>)
    | Starred(inner: Expr)
    | OtherExpr

  /** `key: value`, or `**value` when there is no key. */
  datatype DictItem = DictItem(key: Option<Expr>, value: Expr)

  /** `arg=value`, or `**value` when there is no name. */
  datatype Keyword = Keyword(arg: Option<string>, value: Expr)

  datatype Stmt =
    | Import
    | Assign(targets: seq<Expr>, value: Expr)
    | ExprStmt(call: Expr)
    | OtherStmt

  predicate IsScalar(v: Value) {
    !v.List? && !v.Tuple? && !v.Dict?
  }

  // ------------------------------------------------------- ast.literal_eval

  /** `dict(zip(keys, values))`: a repeated key keeps its first place and its last value. */
  function SetItem(fields: Fields, name: string, v: Value): (r: Fields)
    ensures UniqueNames(fields) ==> UniqueNames(r)
    ensures forall i :: 0 <= i < |r| ==>
            r[i].name == name || exists j :: 0 <= j < |fields| && fields[j].name == r[i].name
    ensures |fields| <= |r|
    decreases |fields|
  {
    if fields == [] then [Field(name, v)]
    else if fields[0].name == name then [Field(name, v)] + fields[1..]
    else [fields[0]] + SetItem(fields[1..], name, v)
  }

  function LiteralEval(e: Expr): Option<Value>
    decreases e
  {
    match e
    case Constant(v) => if IsScalar(v) then Some(v) else None
    case Minus(Constant(Int(i))) => Some(Int(-i))
    case Minus(Constant(Float(r))) => Some(Float(-r))
    case ListExpr(items) =>
      var vs := EvalAll(items);
      if vs.None? then None else Some(List(vs.value))
    case TupleExpr(elems) =>
      var vs := EvalAll(elems);
      if vs.None? then None else Some(Tuple(vs.value))
    case DictExpr(entries) => EvalEntries(entries)
    case _ => None
  }

  function EvalAll(es: seq<Expr>): (r: Option<seq<Value>>)
    ensures r.Some? ==> |r.value| == |es|
    decreases es
  {
    if es == [] then Some([])
    else
      var init := EvalAll(es[..|es| - 1]);
      var last := LiteralEval(es[|es| - 1]);
      if init.None? || last.None? then None else Some(init.value + [last.value])
  }

  predicate Hashable(v: Value)
    decreases v
  {
    !v.List? && !v.Dict? && !(v.Foreign? && v.isDict) &&
    (v.Tuple? ==> forall i :: 0 <= i < |v.elems| ==> Hashable(v.elems[i]))
  }

  /** A dictionary all of whose keys are strings is a `Dict`; one with another hashable key
      is a `Foreign` dictionary, of which only its being a dictionary is kept. */
  function EvalEntries(entries: seq<DictItem>): (r: Option<Value>)
    ensures r.Some? ==> r.value.Dict? || (r.value.Foreign? && r.value.isDict)
    decreases entries
  {
    if entries == [] then Some(Dict([]))
    else
      var init := EvalEntries(entries[..|entries| - 1]);
      var item := EvalItem(entries[|entries| - 1]);
      if init.None? || item.None? then None
      else
        var (k, v) := item.value;
        if init.value.Dict? && k.Str? then Some(Dict(SetItem(init.value.fields, k.s, v)))
        else Some(Foreign(0, true))
  }

  function EvalItem(item: DictItem): Option<(Value, Value)>
    decreases item
  {
    if item.key.None? then None
    else
      var k := LiteralEval(item.key.value);
      var v := LiteralEval(item.value);
      if k.None? || v.None? || !Hashable(k.value) then None else Some((k.value, v.value))
  }

  /** What `pprint.pformat` writes for a value, as the tree it parses to. */
  function Literal(v: Value): Expr
    decreases v
  {
    match v
    case Int(i) => if i < 0 then Minus(Constant(Int(-i))) else Constant(v)
    case Float(r) => if r < 0.0 then Minus(Constant(Float(-r))) else Constant(v)
    case List(items) => ListExpr(Literals(items))
    case Tuple(elems) => TupleExpr(Literals(elems))
    case Dict(fields) => DictExpr(LiteralItems(fields))
    case _ => Constant(v)
  }

  function Literals(vs: seq<Value>): (es: seq<Expr>)
    ensures |es| == |vs|
    decreases vs
  {
    if vs == [] then [] else Literals(vs[..|vs| - 1]) + [Literal(vs[|vs| - 1])]
  }

  function LiteralItems(fields: Fields): (es: seq<DictItem>)
    ensures |es| == |fields|
    decreases fields
  {
    if fields == [] then []
    else LiteralItems(fields[..|fields| - 1]) + [LiteralItem(fields[|fields| - 1])]
  }

  function LiteralItem(field: Field): DictItem
    decreases field
  {
    DictItem(Some(Constant(Str(field.name))), Literal(field.value))
  }

  lemma {:induction false} SetItemFresh(fields: Fields, name: string, v: Value)
    requires forall i :: 0 <= i < |fields| ==> fields[i].name != name
    ensures SetItem(fields, name, v) == fields + [Field(name, v)]
  {
    if fields == [] {
    } else {
      SetItemFresh(fields[1..], name, v);
    }
  }

  lemma {:induction false} LiteralsRoundTrip(vs: seq<Value>)
    requires forall i :: 0 <= i < |vs| ==> Proper(vs[i])
    ensures EvalAll(Literals(vs)) == Some(vs)
    decreases vs
  {
    if vs == [] {
    } else {
      var n := |vs| - 1;
      LiteralsRoundTrip(vs[..n]);
      LiteralRoundTrip(vs[n]);
      assert Literals(vs)[..n] == Literals(vs[..n]);
      assert vs == vs[..n] + [vs[n]];
    }
  }

  lemma EvalEntriesSnoc(entries: seq<DictItem>, item: DictItem, fields: Fields, name: string, v: Value)
    requires EvalEntries(entries) == Some(Dict(fields)) && EvalItem(item) == Some((Str(name), v))
    ensures EvalEntries(entries + [item]) == Some(Dict(SetItem(fields, name, v)))
  {
    assert (entries + [item])[..|entries|] == entries;
  }

  lemma ProperPrefix(fields: Fields)
    requires ProperFields(fields) && fields != []
    ensures var n := |fields| - 1;
            && ProperFields(fields[..n]) && Proper(fields[n].value)
            && (forall i :: 0 <= i < n ==> fields[..n][i].name != fields[n].name)
            && fields == fields[..n] + [fields[n]]
  {}

  lemma {:induction false} LiteralItemsRoundTrip(fields: Fields)
    requires ProperFields(fields)
    ensures EvalEntries(LiteralItems(fields)) == Some(Dict(fields))
    decreases fields
  {
    if fields == [] {
    } else {
      var n := |fields| - 1;
      ProperPrefix(fields);
      LiteralItemsRoundTrip(fields[..n]);
      LiteralItemRoundTrip(fields[n]);
      SetItemFresh(fields[..n], fields[n].name, fields[n].value);
      EvalEntriesSnoc(LiteralItems(fields[..n]), LiteralItem(fields[n]), fields[..n], fields[n].name, fields[n].value);
    }
  }

  lemma {:induction false} LiteralItemRoundTrip(field: Field)
    requires Proper(field.value)
    ensures EvalItem(LiteralItem(field)) == Some((Str(field.name), field.value))
    decreases field
  {
    LiteralRoundTrip(field.value);
  }

  lemma ScalarRoundTrip(v: Value)
    requires IsScalar(v)
    ensures LiteralEval(Literal(v)) == Some(v)
  {}

  lemma EvalSequences(es: seq<Expr>, vs: seq<Value>)
    requires EvalAll(es) == Some(vs)
    ensures LiteralEval(ListExpr(es)) == Some(List(vs)) && LiteralEval(TupleExpr(es)) == Some(Tuple(vs))
  {}

  lemma EvalDict(entries: seq<DictItem>)
    ensures LiteralEval(DictExpr(entries)) == EvalEntries(entries)
  {}

  /** Printing a value and evaluating the literal gives the value back. */
  lemma {:induction false} LiteralRoundTrip(v: Value)
    requires Proper(v)
    ensures LiteralEval(Literal(v)) == Some(v)
    decreases v
  {
    if v.List? {
      LiteralsRoundTrip(v.items);
      EvalSequences(Literals(v.items), v.items);
      assert Literal(v) == ListExpr(Literals(v.items));
    } else if v.Tuple? {
      LiteralsRoundTrip(v.elems);
      EvalSequences(Literals(v.elems), v.elems);
      assert Literal(v) == TupleExpr(Literals(v.elems));
    } else if v.Dict? {
      LiteralItemsRoundTrip(v.fields);
      EvalDict(LiteralItems(v.fields));
      assert Literal(v) == DictExpr(LiteralItems(v.fields));
    } else {
      ScalarRoundTrip(v);
    }
  }
}
