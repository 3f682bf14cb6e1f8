/** Python literal values as the bridge sees them, with Python's own notion of `==`.

    A dictionary keeps its insertion order, because generated source prints it in that
    order; Python's `==` ignores the order. Floats are finite and carried exactly.
    `Foreign` stands for every literal no stored JSON graph contains: bytes, complex
    numbers, `...`, sets, and dictionaries with a key that is not a string. */
module PyValues {
  import opened Optional

  datatype Value =
    | Null
    | Bool(b: bool)
    | Int(i: int)
    | Float(r: real)
    | Str(s: string)
    | List(items: seq<Value>)
    | Tuple(elems: seq<Value>)
    | Dict(fields: seq<Field>)
    | Foreign(id: nat, isDict: bool)

  datatype Field = Field(name: string, value: Value)

  type Fields = seq<Field>

  /** `fields.get(name)`, with `None` for a missing key. */
  function Lookup(fields: Fields, name: string): (r: Option<Value>)
    ensures r.Some? <==> exists i :: 0 <= i < |fields| && fields[i].name == name
    ensures r.Some? ==> exists i :: 0 <= i < |fields| && fields[i] == Field(name, r.value)
  {
    if fields == [] then None
    else if fields[0].name == name then Some(fields[0].value)
    else
      assert forall i :: 0 < i < |fields| ==> fields[i] == fields[1..][i - 1];
      Lookup(fields[1..], name)
  }

  /** The one shape a Python dictionary can have: no key twice. */
  ghost predicate UniqueNames(fields: Fields) {
    forall i, j :: 0 <= i < j < |fields| ==> fields[i].name != fields[j].name
  }

  /** Values that Python itself can hold: every dictionary inside has unique keys. */
  ghost predicate Proper(v: Value) {
    match v
    case List(items) => forall i :: 0 <= i < |items| ==> Proper(items[i])
    case Tuple(elems) => forall i :: 0 <= i < |elems| ==> Proper(elems[i])
    case Dict(fields) => UniqueNames(fields) && forall i :: 0 <= i < |fields| ==> Proper(fields[i].value)
    case _ => true
  }

  ghost predicate ProperFields(fields: Fields) {
    UniqueNames(fields) && forall i :: 0 <= i < |fields| ==> Proper(fields[i].value)
  }

  /** `isinstance(value, (int, float))`: booleans are integers in Python. */
  predicate IsNumeric(v: Value) {
    v.Bool? || v.Int? || v.Float?
  }

  function NumericValue(v: Value): real
    requires IsNumeric(v)
  {
    match v
    case Bool(b) => if b then 1.0 else 0.0
    case Int(i) => i as real
    case Float(r) => r
  }

  /** Python's `==`: `True == 1 == 1.0`, a list never equals a tuple, and dictionaries
      compare without regard to order. */
  predicate PyEq(v: Value, w: Value)
    decreases v
  {
    if IsNumeric(v) && IsNumeric(w) then NumericValue(v) == NumericValue(w)
    else match (v, w)
      case (Null, Null) => true
      case (Str(s), Str(t)) => s == t
      case (List(xs), List(ys)) =>
        |xs| == |ys| && forall i :: 0 <= i < |xs| ==> PyEq(xs[i], ys[i])
      case (Tuple(xs), Tuple(ys)) =>
        |xs| == |ys| && forall i :: 0 <= i < |xs| ==> PyEq(xs[i], ys[i])
      case (Dict(fs), Dict(gs)) =>
        |fs| == |gs| && forall i :: 0 <= i < |fs| ==>
                                  var found := Lookup(gs, fs[i].name);
                                  found.Some? && PyEq(fs[i].value, found.value)
      case (Foreign(_, _), Foreign(_, _)) => v == w
      case _ => false
  }

  lemma LookupAt(fields: Fields, i: nat)
    requires UniqueNames(fields) && i < |fields|
    ensures Lookup(fields, fields[i].name) == Some(fields[i].value)
  {
    var found := Lookup(fields, fields[i].name);
    var j :| 0 <= j < |fields| && fields[j] == Field(fields[i].name, found.value);
    assert j == i;
  }

  lemma {:induction false} PyEqReflexive(v: Value)
    requires Proper(v)
    ensures PyEq(v, v)
  {
    match v
    case List(items) =>
      forall i | 0 <= i < |items| ensures PyEq(items[i], items[i]) { PyEqReflexive(items[i]); }
    case Tuple(elems) =>
      forall i | 0 <= i < |elems| ensures PyEq(elems[i], elems[i]) { PyEqReflexive(elems[i]); }
    case Dict(fields) =>
      forall i | 0 <= i < |fields|
        ensures Lookup(fields, fields[i].name) == Some(fields[i].value)
        ensures PyEq(fields[i].value, fields[i].value)
      {
        LookupAt(fields, i);
        PyEqReflexive(fields[i].value);
      }
    case _ =>
  }

  lemma LookupConcat(a: Fields, b: Fields, name: string)
    ensures Lookup(a + b, name) == if Lookup(a, name).Some? then Lookup(a, name) else Lookup(b, name)
  {
    if a == [] {
      assert a + b == b;
    } else {
      assert (a + b)[1..] == a[1..] + b;
      LookupConcat(a[1..], b, name);
    }
  }
}
