/** What printing a node's data and validating it again does to the data. */
module BridgeData {
  import opened Optional
  import opened PyValues
  import opened NodeSpecs
  import opened PySource
  import opened Bridge

  /** The value a property has after a round trip, said without the printer or the parser:
      the stored value without undeclared cells, except that anything Python calls equal to
      the default becomes the default, and an absent value becomes the default too. */
  function Normal(prop: PropertySpec, data: Fields): Option<Value> {
    match Lookup(data, prop.name)
    case None => if prop.default != Null then Some(prop.default) else None
    case Some(v) =>
      var known := KnownValue(prop, v);
      if prop.default != Null && PyEq(prop.default, known) then Some(prop.default) else Some(known)
  }

  ghost function NormalData(spec: NodeSpec, data: Fields): Fields {
    Collect(spec.properties, p => Normal(p, data))
  }

  /** Whether a node's data survives: every property, defaults filled in, conforms. */
  ghost predicate Survives(spec: NodeSpec, data: Fields) {
    forall i :: 0 <= i < |spec.properties| ==>
                  match Normal(spec.properties[i], data)
                  case None => !spec.properties[i].required
                  case Some(v) => Conforms(spec.properties[i], v)
  }

  // ------------------------------------------------------------ lookups

  lemma {:induction false} LookupKnown(props: seq<PropertySpec>, data: Fields, name: string)
    ensures Lookup(KnownData(props, data), name) ==
            match (FindProperty(props, name), Lookup(data, name))
            case (Some(prop), Some(v)) => Some(KnownValue(prop, v))
            case _ => None
  {
    if data == [] {
    } else {
      LookupKnown(props, data[1..], name);
      var prop := FindProperty(props, data[0].name);
      var head := if prop.None? then [] else [Field(data[0].name, KnownValue(prop.value, data[0].value))];
      LookupConcat(head, KnownData(props, data[1..]), name);
    }
  }

  lemma {:induction false} KnownDataFrom(props: seq<PropertySpec>, data: Fields, i: nat)
    requires i < |KnownData(props, data)|
    ensures var f := KnownData(props, data)[i];
            HasName(props, f.name) &&
            exists j :: 0 <= j < |data| && data[j].name == f.name &&
                        f.value == KnownValue(FindProperty(props, f.name).value, data[j].value)
  {
    var prop := FindProperty(props, data[0].name);
    var head := if prop.None? then 0 else 1;
    if i >= head {
      KnownDataFrom(props, data[1..], i - head);
      var f := KnownData(props, data)[i];
      var j :| 0 <= j < |data[1..]| && data[1..][j].name == f.name &&
               f.value == KnownValue(FindProperty(props, f.name).value, data[1..][j].value);
      assert data[j + 1] == data[1..][j];
    } else {
      assert data[0].name == KnownData(props, data)[i].name;
    }
  }

  lemma {:induction false} KnownDataUnique(props: seq<PropertySpec>, data: Fields)
    requires UniqueNames(data)
    ensures UniqueNames(KnownData(props, data))
  {
    if data == [] {
    } else {
      KnownDataUnique(props, data[1..]);
      forall i | 0 <= i < |KnownData(props, data[1..])|
        ensures KnownData(props, data[1..])[i].name != data[0].name
      {
        KnownDataFrom(props, data[1..], i);
      }
    }
  }

  lemma {:induction false} KnownCellsUnique(row: Fields, subs: seq<PropertySpec>)
    requires UniqueNames(row)
    ensures UniqueNames(KnownCells(row, subs))
  {
    if row == [] {
    } else {
      KnownCellsUnique(row[1..], subs);
    }
  }

  lemma KnownValueProper(prop: PropertySpec, v: Value)
    requires Proper(v)
    ensures Proper(KnownValue(prop, v))
  {
    if prop.typ == FixedCollection && v.List? {
      forall i | 0 <= i < |v.items| && v.items[i].Dict?
        ensures Proper(Dict(KnownCells(v.items[i].fields, prop.properties)))
      {
        KnownCellsUnique(v.items[i].fields, prop.properties);
      }
    }
  }

  lemma KnownDataProper(props: seq<PropertySpec>, data: Fields)
    requires ProperFields(data)
    ensures ProperFields(KnownData(props, data))
  {
    KnownDataUnique(props, data);
    forall i | 0 <= i < |KnownData(props, data)| ensures Proper(KnownData(props, data)[i].value) {
      KnownDataFrom(props, data, i);
      var f := KnownData(props, data)[i];
      var j :| 0 <= j < |data| && data[j].name == f.name &&
               f.value == KnownValue(FindProperty(props, f.name).value, data[j].value);
      KnownValueProper(FindProperty(props, f.name).value, data[j].value);
    }
  }

  lemma {:induction false} WithoutDefaultsFrom(props: seq<PropertySpec>, data: Fields, i: nat)
    requires i < |WithoutDefaults(props, data)|
    ensures exists j :: 0 <= j < |data| && data[j] == WithoutDefaults(props, data)[i]
  {
    var head := if IsDefault(props, data[0]) then 0 else 1;
    if i >= head {
      WithoutDefaultsFrom(props, data[1..], i - head);
      var j :| 0 <= j < |data[1..]| && data[1..][j] == WithoutDefaults(props, data)[i];
      assert data[j + 1] == data[1..][j];
    } else {
      assert data[0] == WithoutDefaults(props, data)[i];
    }
  }

  lemma {:induction false} LookupWithoutDefaults(props: seq<PropertySpec>, data: Fields, name: string)
    requires UniqueNames(data)
    ensures Lookup(WithoutDefaults(props, data), name) ==
            match Lookup(data, name)
            case Some(v) => if IsDefault(props, Field(name, v)) then None else Some(v)
            case None => None
  {
    if data == [] {
    } else {
      LookupWithoutDefaults(props, data[1..], name);
      var head := if IsDefault(props, data[0]) then [] else [data[0]];
      LookupConcat(head, WithoutDefaults(props, data[1..]), name);
    }
  }

  lemma {:induction false} WithoutDefaultsProper(props: seq<PropertySpec>, data: Fields)
    requires ProperFields(data)
    ensures ProperFields(WithoutDefaults(props, data))
  {
    if data == [] {
    } else {
      WithoutDefaultsProper(props, data[1..]);
      forall i | 0 <= i < |WithoutDefaults(props, data[1..])|
        ensures WithoutDefaults(props, data[1..])[i].name != data[0].name
      {
        WithoutDefaultsFrom(props, data[1..], i);
      }
    }
  }

  // -------------------------------------------------- printing, then validating

  lemma AuthoredProper(spec: NodeSpec, data: Fields)
    requires ProperFields(data)
    ensures ProperFields(Authored(spec, data))
  {
    KnownDataProper(spec.properties, data);
    WithoutDefaultsProper(spec.properties, KnownData(spec.properties, data));
  }

  lemma AuthoredKnown(spec: NodeSpec, data: Fields, i: nat)
    requires i < |Authored(spec, data)|
    ensures HasName(spec.properties, Authored(spec, data)[i].name)
  {
    var known := KnownData(spec.properties, data);
    WithoutDefaultsFrom(spec.properties, known, i);
    var j :| 0 <= j < |known| && known[j] == Authored(spec, data)[i];
    KnownDataFrom(spec.properties, data, j);
  }

  lemma FilledAuthored(spec: NodeSpec, data: Fields, k: nat)
    requires ProperFields(data) && DistinctProperties(spec.properties) && k < |spec.properties|
    ensures Filled(spec.properties[k], Authored(spec, data)) == Normal(spec.properties[k], data)
  {
    var props, prop := spec.properties, spec.properties[k];
    FindPropertyAt(props, k);
    KnownDataProper(props, data);
    LookupKnown(props, data, prop.name);
    LookupWithoutDefaults(props, KnownData(props, data), prop.name);
  }

  lemma {:induction false} CollectAgree(props: seq<PropertySpec>, f: PropertySpec -> Option<Value>,
                                        g: PropertySpec -> Option<Value>)
    requires forall i :: 0 <= i < |props| ==> f(props[i]) == g(props[i])
    ensures Collect(props, f) == Collect(props, g)
  {
    if props == [] {
    } else {
      CollectAgree(props[..|props| - 1], f, g);
    }
  }

  /** Printing data and validating what was printed yields the normal form, exactly when the
      data survives. */
  lemma ValidateAuthored(spec: NodeSpec, data: Fields)
    requires ProperFields(data) && DistinctProperties(spec.properties)
    ensures var r := ValidateData(spec, Authored(spec, data));
            if Survives(spec, data) then r == Valid(NormalData(spec, data)) else r.Invalid?
  {
    var props, authored := spec.properties, Authored(spec, data);
    forall i | 0 <= i < |authored| ensures HasName(props, authored[i].name) {
      AuthoredKnown(spec, data, i);
    }
    forall k | 0 <= k < |props| ensures Filled(props[k], authored) == Normal(props[k], data) {
      FilledAuthored(spec, data, k);
    }
    ValidateMeaning(spec, authored);
    CollectAgree(props, p => Filled(p, authored), p => Normal(p, data));
  }

  // ----------------------------------------------------------- the normal form

  lemma {:induction false} KnownCellsAll(row: Fields, subs: seq<PropertySpec>)
    requires forall i :: 0 <= i < |row| ==> HasName(subs, row[i].name)
    ensures KnownCells(row, subs) == row
  {
    if row == [] {
    } else {
      KnownCellsAll(row[1..], subs);
      assert row == [row[0]] + row[1..] && HasName(subs, row[0].name);
    }
  }

  /** A conforming value has no undeclared cell to drop. */
  lemma ConformingIsKnown(prop: PropertySpec, v: Value)
    requires Conforms(prop, v)
    ensures KnownValue(prop, v) == v
  {
    if prop.typ == FixedCollection && v.List? {
      assert RowsConform(prop, v);
      forall i | 0 <= i < |v.items| ensures KnownRows(v.items, prop.properties)[i] == v.items[i] {
        assert RowConforms(prop, v.items[i]);
        KnownCellsAll(v.items[i].fields, prop.properties);
      }
    }
  }

  lemma NormalOfNormal(spec: NodeSpec, data: Fields, k: nat)
    requires DistinctProperties(spec.properties) && Survives(spec, data) && k < |spec.properties|
    ensures Normal(spec.properties[k], NormalData(spec, data)) == Normal(spec.properties[k], data)
  {
    var prop := spec.properties[k];
    LookupCollect(spec.properties, p => Normal(p, data), k);
    if Normal(prop, data).Some? {
      ConformingIsKnown(prop, Normal(prop, data).value);
    }
  }

  /** One round trip reaches the normal form: the next one changes nothing. */
  lemma NormalDataIsNormal(spec: NodeSpec, data: Fields)
    requires DistinctProperties(spec.properties) && Survives(spec, data)
    ensures Survives(spec, NormalData(spec, data))
    ensures NormalData(spec, NormalData(spec, data)) == NormalData(spec, data)
  {
    var props, normal := spec.properties, NormalData(spec, data);
    forall k | 0 <= k < |props| ensures Normal(props[k], normal) == Normal(props[k], data) {
      NormalOfNormal(spec, data, k);
    }
    CollectAgree(props, p => Normal(p, normal), p => Normal(p, data));
  }

  /** Nothing a node says is lost: each declared field keeps a value that Python calls equal
      to the stored one, stripped of undeclared cells. */
  lemma NormalKeepsMeaning(spec: NodeSpec, data: Fields, k: nat)
    requires ProperFields(data) && DistinctProperties(spec.properties) && k < |spec.properties|
    requires Lookup(data, spec.properties[k].name).Some?
    ensures var prop := spec.properties[k];
            var after := Lookup(NormalData(spec, data), prop.name);
            after.Some? && PyEq(after.value, KnownValue(prop, Lookup(data, prop.name).value))
  {
    var prop := spec.properties[k];
    var v := Lookup(data, prop.name).value;
    LookupCollect(spec.properties, p => Normal(p, data), k);
    var j :| 0 <= j < |data| && data[j] == Field(prop.name, v);
    KnownValueProper(prop, v);
    PyEqReflexive(KnownValue(prop, v));
  }
}
