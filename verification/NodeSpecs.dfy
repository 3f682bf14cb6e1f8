/** Node specifications and the checks the bridge runs against them
    (`api/mcp_server/python_bridge.py`, `api/services/workflow/node_specs/_base.py`). */
module NodeSpecs {
  import opened Optional
  import opened PyValues

  datatype PropertyType =
    | StringType | MentionTextarea | Url | RecordingRef | CredentialRef
    | Number | Boolean | Options | MultiOptions | ToolRefs | DocumentRefs | Json | FixedCollection

  /** `default == Null` is Python's `default is None`; a pattern is the set of strings that
      `re.search` accepts, given by its characteristic function. */
  datatype PropertySpec = PropertySpec(
    name: string,
    typ: PropertyType,
    default: Value,
    required: bool,
    options: seq<Value>,
    properties: seq<PropertySpec>,
    minValue: Option<real>,
    maxValue: Option<real>,
    minLength: Option<int>,
    maxLength: Option<int>,
    pattern: Option<string -> bool>)

  datatype NodeSpec = NodeSpec(name: string, properties: seq<PropertySpec>)

  datatype PropertyError =
    | WrongShape
    | TooShort | TooLong | PatternMismatch
    | TooSmall | TooLarge
    | NotAnOption | BadItem
    | RowNotDict(row: nat)
    | RowUnknownField(row: nat)
    | RowMissingField(row: nat, field: string)
    | RowField(row: nat, field: string, error: PropertyError)

  datatype DataError = UnknownField | MissingField(field: string) | InvalidField(field: string, error: PropertyError)

  datatype Validated = Valid(fields: Fields) | Invalid(error: DataError)

  predicate IsText(t: PropertyType) {
    t in {StringType, MentionTextarea, Url, RecordingRef, CredentialRef}
  }

  /** `value in allowed`. */
  predicate OneOf(v: Value, allowed: seq<Value>) {
    exists i :: 0 <= i < |allowed| && PyEq(allowed[i], v)
  }

  predicate HasName(props: seq<PropertySpec>, name: string) {
    exists i :: 0 <= i < |props| && props[i].name == name
  }

  function FindProperty(props: seq<PropertySpec>, name: string): (r: Option<PropertySpec>)
    ensures r.Some? <==> HasName(props, name)
    ensures r.Some? ==> r.value in props && r.value.name == name
  {
    if props == [] then None
    else if props[0].name == name then Some(props[0])
    else
      assert forall i :: 0 < i < |props| ==> props[i] == props[1..][i - 1];
      FindProperty(props[1..], name)
  }

  /** A registry fact: property names come from model fields, so none repeats. */
  ghost predicate DistinctProperties(props: seq<PropertySpec>) {
    forall i, j :: 0 <= i < j < |props| ==> props[i].name != props[j].name
  }

  lemma FindPropertyAt(props: seq<PropertySpec>, i: nat)
    requires DistinctProperties(props) && i < |props|
    ensures FindProperty(props, props[i].name) == Some(props[i])
  {
    var found := FindProperty(props, props[i].name).value;
    var j :| 0 <= j < |props| && props[j] == found;
    assert j == i;
  }

  // ---------------------------------------------------------------- validation

  function TextError(prop: PropertySpec, v: Value): Option<PropertyError> {
    if !v.Str? then Some(WrongShape)
    else if prop.minLength.Some? && |v.s| < prop.minLength.value then Some(TooShort)
    else if prop.maxLength.Some? && |v.s| > prop.maxLength.value then Some(TooLong)
    else if prop.pattern.Some? && !prop.pattern.value(v.s) then Some(PatternMismatch)
    else None
  }

  function NumberError(prop: PropertySpec, v: Value): Option<PropertyError> {
    if v.Bool? || !IsNumeric(v) then Some(WrongShape)
    else if prop.minValue.Some? && NumericValue(v) < prop.minValue.value then Some(TooSmall)
    else if prop.maxValue.Some? && NumericValue(v) > prop.maxValue.value then Some(TooLarge)
    else None
  }

  function ListError(prop: PropertySpec, v: Value): Option<PropertyError> {
    if !v.List? then Some(WrongShape)
    else if prop.typ == MultiOptions then
      if prop.options != [] && exists i :: 0 <= i < |v.items| && !OneOf(v.items[i], prop.options)
      then Some(NotAnOption) else None
    else if exists i :: 0 <= i < |v.items| && !v.items[i].Str? then Some(BadItem)
    else None
  }

  /** The first complaint about a value, in the order the source raises them. */
  function PropertyErrorOf(prop: PropertySpec, v: Value): Option<PropertyError>
    decreases prop, 3, 0
  {
    if IsText(prop.typ) then TextError(prop, v)
    else match prop.typ
      case Number => NumberError(prop, v)
      case Boolean => if v.Bool? then None else Some(WrongShape)
      case Options => if prop.options == [] || OneOf(v, prop.options) then None else Some(NotAnOption)
      case Json => if v.Dict? || (v.Foreign? && v.isDict) then None else Some(WrongShape)
      case FixedCollection => if v.List? then RowsError(prop, v.items, 0) else Some(WrongShape)
      case _ => ListError(prop, v)
  }

  function RowsError(prop: PropertySpec, rows: seq<Value>, from: nat): Option<PropertyError>
    requires from <= |rows|
    decreases prop, 2, |rows| - from
  {
    if from == |rows| then None
    else
      var error := RowError(prop, rows[from], from);
      if error.Some? then error else RowsError(prop, rows, from + 1)
  }

  function RowError(prop: PropertySpec, row: Value, index: nat): Option<PropertyError>
    decreases prop, 1, 0
  {
    if row.Foreign? && row.isDict then Some(RowUnknownField(index))
    else if !row.Dict? then Some(RowNotDict(index))
    else if exists i :: 0 <= i < |row.fields| && !HasName(prop.properties, row.fields[i].name)
    then Some(RowUnknownField(index))
    else CellsError(prop, row.fields, index, 0)
  }

  function CellsError(prop: PropertySpec, row: Fields, index: nat, from: nat): Option<PropertyError>
    requires from <= |prop.properties|
    decreases prop, 0, |prop.properties| - from
  {
    if from == |prop.properties| then None
    else
      var sub := prop.properties[from];
      match Lookup(row, sub.name)
      case None =>
        if sub.required && sub.default == Null then Some(RowMissingField(index, sub.name))
        else CellsError(prop, row, index, from + 1)
      case Some(cell) =>
        var error := PropertyErrorOf(sub, cell);
        if error.Some? then Some(RowField(index, sub.name, error.value))
        else CellsError(prop, row, index, from + 1)
  }

  ghost predicate TextConforms(prop: PropertySpec, v: Value) {
    && v.Str?
    && (prop.minLength.Some? ==> prop.minLength.value <= |v.s|)
    && (prop.maxLength.Some? ==> |v.s| <= prop.maxLength.value)
    && (prop.pattern.Some? ==> prop.pattern.value(v.s))
  }

  ghost predicate NumberConforms(prop: PropertySpec, v: Value) {
    && (v.Int? || v.Float?)
    && (prop.minValue.Some? ==> prop.minValue.value <= NumericValue(v))
    && (prop.maxValue.Some? ==> NumericValue(v) <= prop.maxValue.value)
  }

  ghost predicate ListConforms(prop: PropertySpec, v: Value) {
    && v.List?
    && forall i :: 0 <= i < |v.items| ==>
                     if prop.typ == MultiOptions then prop.options != [] ==> OneOf(v.items[i], prop.options)
                     else v.items[i].Str?
  }

  /** What a specification asks of a value, with no order of evaluation: every row of a
      collection is a dictionary whose keys are all declared, whose required cells are
      there (unless they have a default), and whose present cells conform in turn. */
  ghost predicate Conforms(prop: PropertySpec, v: Value)
    decreases prop, 1
  {
    if IsText(prop.typ) then TextConforms(prop, v)
    else match prop.typ
      case Number => NumberConforms(prop, v)
      case Boolean => v.Bool?
      case Options => prop.options != [] ==> OneOf(v, prop.options)
      case Json => v.Dict? || (v.Foreign? && v.isDict)
      case FixedCollection => RowsConform(prop, v)
      case _ => ListConforms(prop, v)
  }

  ghost predicate RowsConform(prop: PropertySpec, v: Value)
    decreases prop, 0, 1
  {
    v.List? && forall i :: 0 <= i < |v.items| ==> RowConforms(prop, v.items[i])
  }

  ghost predicate RowConforms(prop: PropertySpec, row: Value)
    decreases prop, 0, 0
  {
    && row.Dict?
    && (forall i :: 0 <= i < |row.fields| ==> HasName(prop.properties, row.fields[i].name))
    && forall k :: 0 <= k < |prop.properties| ==>
                     var sub := prop.properties[k];
                     match Lookup(row.fields, sub.name)
                     case None => sub.required ==> sub.default != Null
                     case Some(cell) => Conforms(sub, cell)
  }

  lemma {:induction false} CellsErrorMeaning(prop: PropertySpec, row: Fields, index: nat, from: nat)
    requires from <= |prop.properties|
    ensures CellsError(prop, row, index, from).None? <==>
            forall k :: from <= k < |prop.properties| ==>
                          var sub := prop.properties[k];
                          match Lookup(row, sub.name)
                          case None => sub.required ==> sub.default != Null
                          case Some(cell) => Conforms(sub, cell)
    decreases prop, 0, |prop.properties| - from
  {
    if from == |prop.properties| {
    } else {
      CellsErrorMeaning(prop, row, index, from + 1);
      var cell := Lookup(row, prop.properties[from].name);
      if cell.Some? {
        PropertyErrorMeaning(prop.properties[from], cell.value);
      }
    }
  }

  lemma {:induction false} RowErrorMeaning(prop: PropertySpec, row: Value, index: nat)
    ensures RowError(prop, row, index).None? <==> RowConforms(prop, row)
    decreases prop, 1, 0
  {
    if row.Dict? {
      CellsErrorMeaning(prop, row.fields, index, 0);
    }
  }

  lemma {:induction false} RowsErrorMeaning(prop: PropertySpec, rows: seq<Value>, from: nat, accepts: Value -> bool)
    requires from <= |rows|
    requires forall i :: from <= i < |rows| ==> (RowError(prop, rows[i], i).None? <==> accepts(rows[i]))
    ensures RowsError(prop, rows, from).None? <==> forall i :: from <= i < |rows| ==> accepts(rows[i])
    decreases |rows| - from
  {
    if from == |rows| {
    } else {
      RowsErrorMeaning(prop, rows, from + 1, accepts);
    }
  }

  /** The recursive validator accepts exactly the conforming values. */
  lemma {:induction false} PropertyErrorMeaning(prop: PropertySpec, v: Value)
    ensures PropertyErrorOf(prop, v).None? <==> Conforms(prop, v)
    decreases prop, 3, 0
  {
    if prop.typ == FixedCollection && v.List? {
      var accepts := (row: Value) => RowConforms(prop, row);
      forall i | 0 <= i < |v.items| ensures RowError(prop, v.items[i], i).None? <==> accepts(v.items[i]) {
        RowErrorMeaning(prop, v.items[i], i);
      }
      RowsErrorMeaning(prop, v.items, 0, accepts);
    }
  }

  function FillDefaults(props: seq<PropertySpec>, data: Fields): Validated
    decreases |props|
  {
    if props == [] then Valid([])
    else
      var last := props[|props| - 1];
      var before := FillDefaults(props[..|props| - 1], data);
      if before.Invalid? then before
      else match Lookup(data, last.name)
        case Some(v) => Valid(before.fields + [Field(last.name, v)])
        case None =>
          if last.default != Null then Valid(before.fields + [Field(last.name, last.default)])
          else if last.required then Invalid(MissingField(last.name))
          else before
  }

  /** The first field of `fields`, from index `from`, that its property rejects. */
  function FirstInvalid(props: seq<PropertySpec>, fields: Fields, from: nat): Option<DataError>
    requires from <= |fields|
    decreases |fields| - from
  {
    if from == |fields| then None
    else
      var prop := FindProperty(props, fields[from].name);
      var error := if prop.Some? then PropertyErrorOf(prop.value, fields[from].value) else None;
      if error.Some? then Some(InvalidField(fields[from].name, error.value))
      else FirstInvalid(props, fields, from + 1)
  }

  /** `_validate_data`. */
  function ValidateData(spec: NodeSpec, data: Fields): Validated {
    if exists i :: 0 <= i < |data| && !HasName(spec.properties, data[i].name) then Invalid(UnknownField)
    else
      var filled := FillDefaults(spec.properties, data);
      if filled.Invalid? then filled
      else
        var error := FirstInvalid(spec.properties, filled.fields, 0);
        if error.Some? then Invalid(error.value) else filled
  }

  // ------------------------------------------------- what validation means

  /** The value a property ends up with: the authored one, else its default. */
  function Filled(prop: PropertySpec, data: Fields): Option<Value> {
    match Lookup(data, prop.name)
    case Some(v) => Some(v)
    case None => if prop.default != Null then Some(prop.default) else None
  }

  /** The dictionary, in specification order, of the values `value` gives to properties. */
  ghost function Collect(props: seq<PropertySpec>, value: PropertySpec -> Option<Value>): Fields {
    if props == [] then []
    else
      var last := props[|props| - 1];
      Collect(props[..|props| - 1], value) +
      match value(last) case Some(v) => [Field(last.name, v)] case None => []
  }

  ghost predicate Complete(props: seq<PropertySpec>, value: PropertySpec -> Option<Value>) {
    forall i :: 0 <= i < |props| ==>
                  match value(props[i])
                  case None => !props[i].required
                  case Some(v) => Conforms(props[i], v)
  }

  lemma {:induction false} CollectNames(props: seq<PropertySpec>, value: PropertySpec -> Option<Value>, i: nat)
    requires i < |Collect(props, value)|
    ensures exists k :: 0 <= k < |props| && props[k].name == Collect(props, value)[i].name &&
                        value(props[k]) == Some(Collect(props, value)[i].value)
  {
    var n := |props| - 1;
    if i < |Collect(props[..n], value)| {
      CollectNames(props[..n], value, i);
      var k :| 0 <= k < n && props[..n][k].name == Collect(props[..n], value)[i].name &&
               value(props[..n][k]) == Some(Collect(props[..n], value)[i].value);
      assert props[k] == props[..n][k];
    } else {
      assert props[n].name == Collect(props, value)[i].name;
    }
  }

  lemma LookupLast(props: seq<PropertySpec>, value: PropertySpec -> Option<Value>, name: string)
    requires props != []
    ensures var n := |props| - 1;
            var before := Lookup(Collect(props[..n], value), name);
            Lookup(Collect(props, value), name)
            == if before.Some? || props[n].name != name then before else value(props[n])
  {
    var n := |props| - 1;
    var added := match value(props[n]) case Some(v) => [Field(props[n].name, v)] case None => [];
    LookupConcat(Collect(props[..n], value), added, name);
  }

  lemma {:induction false} NotCollected(props: seq<PropertySpec>, value: PropertySpec -> Option<Value>, name: string)
    requires forall i :: 0 <= i < |props| ==> props[i].name != name
    ensures Lookup(Collect(props, value), name) == None
  {
    if props == [] {
    } else {
      NotCollected(props[..|props| - 1], value, name);
      LookupLast(props, value, name);
    }
  }

  lemma {:induction false} LookupCollect(props: seq<PropertySpec>, value: PropertySpec -> Option<Value>, k: nat)
    requires DistinctProperties(props) && k < |props|
    ensures Lookup(Collect(props, value), props[k].name) == value(props[k])
    decreases |props|
  {
    var n := |props| - 1;
    LookupLast(props, value, props[k].name);
    if k < n {
      LookupCollect(props[..n], value, k);
    } else {
      NotCollected(props[..n], value, props[n].name);
    }
  }

  lemma {:induction false} CollectUnique(props: seq<PropertySpec>, value: PropertySpec -> Option<Value>)
    requires DistinctProperties(props)
    ensures UniqueNames(Collect(props, value))
  {
    if props == [] {
    } else {
      var n := |props| - 1;
      CollectUnique(props[..n], value);
      forall i | 0 <= i < |Collect(props[..n], value)|
        ensures Collect(props[..n], value)[i].name != props[n].name
      {
        CollectNames(props[..n], value, i);
      }
    }
  }

  lemma {:induction false} FillDefaultsMeaning(props: seq<PropertySpec>, data: Fields)
    ensures var r := FillDefaults(props, data);
            if exists i :: 0 <= i < |props| && Filled(props[i], data).None? && props[i].required
            then r.Invalid?
            else r == Valid(Collect(props, p => Filled(p, data)))
  {
    if props == [] {
    } else {
      var n := |props| - 1;
      FillDefaultsMeaning(props[..n], data);
      assert forall i :: 0 <= i < n ==> props[..n][i] == props[i];
    }
  }

  lemma {:induction false} FirstInvalidMeaning(props: seq<PropertySpec>, fields: Fields, from: nat)
    requires from <= |fields|
    requires forall i :: 0 <= i < |fields| ==> HasName(props, fields[i].name)
    ensures FirstInvalid(props, fields, from).None? <==>
            forall i :: from <= i < |fields| ==> Conforms(FindProperty(props, fields[i].name).value, fields[i].value)
    decreases |fields| - from
  {
    if from == |fields| {
    } else {
      FirstInvalidMeaning(props, fields, from + 1);
      PropertyErrorMeaning(FindProperty(props, fields[from].name).value, fields[from].value);
    }
  }

  /** Validation accepts data exactly when it names only declared fields and every property,
      after filling defaults, conforms or is optional and absent; the result is then the
      filled data in specification order. */
  lemma ValidateMeaning(spec: NodeSpec, data: Fields)
    requires DistinctProperties(spec.properties)
    ensures var r := ValidateData(spec, data);
            var fill := (p: PropertySpec) => Filled(p, data);
            if (forall i :: 0 <= i < |data| ==> HasName(spec.properties, data[i].name)) &&
              Complete(spec.properties, fill)
            then r == Valid(Collect(spec.properties, fill))
            else r.Invalid?
  {
    var props := spec.properties;
    var fill := (p: PropertySpec) => Filled(p, data);
    FillDefaultsMeaning(props, data);
    if forall i :: 0 <= i < |props| ==> Filled(props[i], data).Some? || !props[i].required {
      CollectConforms(props, fill);
    }
  }

  lemma CollectedIsGiven(props: seq<PropertySpec>, value: PropertySpec -> Option<Value>, i: nat)
    requires DistinctProperties(props) && i < |Collect(props, value)|
    ensures var field := Collect(props, value)[i];
            HasName(props, field.name) && value(FindProperty(props, field.name).value) == Some(field.value)
  {
    var field := Collect(props, value)[i];
    CollectNames(props, value, i);
    var k :| 0 <= k < |props| && props[k].name == field.name && value(props[k]) == Some(field.value);
    FindPropertyAt(props, k);
  }

  lemma GivenIsCollected(props: seq<PropertySpec>, value: PropertySpec -> Option<Value>, k: nat) returns (i: nat)
    requires DistinctProperties(props) && k < |props| && value(props[k]).Some?
    ensures i < |Collect(props, value)| && Collect(props, value)[i] == Field(props[k].name, value(props[k]).value)
    ensures FindProperty(props, props[k].name) == Some(props[k])
  {
    LookupCollect(props, value, k);
    i :| 0 <= i < |Collect(props, value)| && Collect(props, value)[i] == Field(props[k].name, value(props[k]).value);
    FindPropertyAt(props, k);
  }

  lemma {:induction false} CollectConforms(props: seq<PropertySpec>, value: PropertySpec -> Option<Value>)
    requires DistinctProperties(props)
    requires forall i :: 0 <= i < |props| ==> value(props[i]).Some? || !props[i].required
    ensures FirstInvalid(props, Collect(props, value), 0).None? <==> Complete(props, value)
  {
    var fields := Collect(props, value);
    forall i | 0 <= i < |fields|
      ensures HasName(props, fields[i].name)
      ensures value(FindProperty(props, fields[i].name).value) == Some(fields[i].value)
    {
      CollectedIsGiven(props, value, i);
    }
    FirstInvalidMeaning(props, fields, 0);
    if FirstInvalid(props, fields, 0).None? {
      forall k | 0 <= k < |props| && value(props[k]).Some?
        ensures Conforms(props[k], value(props[k]).value)
      {
        var i := GivenIsCollected(props, value, k);
      }
    }
  }
}
