/** What the validator reports: one error for each fault of a part of the value, at the path of that part. */
module OutputSchemaErrors {
  import opened Basics
  import opened Json
  import opened OutputSchema

  // ---------------------------------------------------------------- the faults of a value

  /** A part of the value with the part of the schema that it is checked against. */
  datatype Spot = Spot(value: Value, schema: Value)

  predicate Typed(v: Value, schema: Value)
  {
    schema.Obj? && ExpectedNames(schema.fields).Some? && TypeMatches(v, ExpectedNames(schema.fields).value)
  }

  /** Where a path leads: along properties and items that the schema speaks of, never through a wrong type. */
  function At(v: Value, schema: Value, path: Path): Option<Spot>
    decreases |path|, 0
  {
    if path == [] then Some(Spot(v, schema))
    else if !Typed(v, schema) then None
    else
      match (path[0], v)
      case (Key(key), Obj(fields)) => AtKey(fields, Get(schema.fields, "properties"), key, path[1..])
      case (Index(i), Arr(items)) => AtIndex(items, Get(schema.fields, "items"), i, path[1..])
      case _ => None
  }

  function AtKey(fields: seq<Field>, properties: Option<Value>, key: string, rest: Path): Option<Spot>
    decreases |rest|, 1
  {
    if properties.Some? && properties.value.Obj? && Has(properties.value.fields, key) && Has(fields, key)
    then At(Get(fields, key).value, Get(properties.value.fields, key).value, rest) else None
  }

  function AtIndex(items: seq<Value>, inner: Option<Value>, i: nat, rest: Path): Option<Spot>
    decreases |rest|, 1
  {
    if inner.Some? && inner.value.Obj? && i < |items| then At(items[i], inner.value, rest) else None
  }

  /** Iterating over `required`: a list's values, an object's keys, a string's characters. */
  function RequiredKeys(s: seq<Field>): seq<Value>
  {
    match Get(s, "required")
    case Some(Arr(values)) => values
    case Some(Obj(fields)) => seq(|fields|, i requires 0 <= i < |fields| => Str(fields[i].name))
    case Some(Str(text)) => seq(|text|, i requires 0 <= i < |text| => Str([text[i]]))
    case _ => []
  }

  /** This part of the value has the fault that the error names. */
  predicate Faulty(spot: Spot, e: SchemaError)
  {
    var v := spot.value;
    spot.schema.Obj? &&
    match e
    case WrongType(_, names) => ExpectedNames(spot.schema.fields) == Some(names) && !TypeMatches(v, names)
    case ConstMismatch(_, c) =>
      Typed(v, spot.schema) && Get(spot.schema.fields, "const") == Some(c) && !Same(v, c)
    case MissingRequired(_, key) =>
      Typed(v, spot.schema) && v.Obj? && key in RequiredKeys(spot.schema.fields) && !(key.Str? && Has(v.fields, key.s))
    case TooFewItems(_, n) =>
      && Typed(v, spot.schema) && v.Arr? && |v.items| < n
      && (Get(spot.schema.fields, "minItems") == Some(Int(n)) ||
          (n == 1 && Get(spot.schema.fields, "minItems") == Some(Bool(true))))
  }

  // ---------------------------------------------------------------- exactly these are reported

  lemma {:induction false} KeysByIndex(fields: seq<Field>)
    ensures KeysOf(fields) == seq(|fields|, i requires 0 <= i < |fields| => Str(fields[i].name))
  {
    if fields != [] { KeysByIndex(fields[1..]); }
  }

  lemma {:induction false} CharactersByIndex(text: string)
    ensures Characters(text) == seq(|text|, i requires 0 <= i < |text| => Str([text[i]]))
  {
    if text != "" { CharactersByIndex(text[1..]); }
  }

  lemma {:induction false} MissingExactly(keys: seq<Value>, fields: seq<Field>, at: Path, e: SchemaError)
    requires RequiredErrors(keys, fields, at).Errors?
    ensures e in RequiredErrors(keys, fields, at).list <==>
      e.MissingRequired? && e.at == at && e.key in keys && !(e.key.Str? && Has(fields, e.key.s))
  {
    if keys != [] {
      MissingExactly(keys[1..], fields, at, e);
      assert e.MissingRequired? ==> (e.key in keys <==> e.key == keys[0] || e.key in keys[1..]);
    }
  }

  lemma RequiredExactly(s: seq<Field>, fields: seq<Field>, at: Path, e: SchemaError)
    requires RequiredReport(s, fields, at).Errors?
    ensures e in RequiredReport(s, fields, at).list <==>
      e.MissingRequired? && e.at == at && e.key in RequiredKeys(s) && !(e.key.Str? && Has(fields, e.key.s))
  {
    match Get(s, "required") {
      case Some(Arr(values)) => MissingExactly(values, fields, at, e);
      case Some(Obj(keys)) => KeysByIndex(keys); MissingExactly(KeysOf(keys), fields, at, e);
      case Some(Str(text)) => CharactersByIndex(text); MissingExactly(Characters(text), fields, at, e);
      case _ =>
    }
  }

  lemma {:induction false} FieldsHaveUniqueKeys(fields: seq<Field>, key: string)
    requires UniqueKeys(Obj(fields)) && Has(fields, key)
    ensures UniqueKeys(Get(fields, key).value)
  {
    if fields[0].name != key { FieldsHaveUniqueKeys(fields[1..], key); }
  }

  lemma {:induction false} HasAmong(fields: seq<Field>, key: string)
    ensures Has(fields, key) <==> exists i :: 0 <= i < |fields| && fields[i].name == key
  {
    if fields != [] {
      HasAmong(fields[1..], key);
      assert forall i :: 1 <= i < |fields| ==> fields[i] == fields[1..][i - 1];
    }
  }

  lemma OneStepDown(at: Path, place: Place, path: Path)
    ensures at + [place] <= path <==> at < path && path[|at|] == place
  {
    if at < path && path[|at|] == place { assert path[..|at| + 1] == at + [place]; }
  }

  /** The error lies below this place, and leads from there to a fault of the part that is checked there. */
  predicate Below(at: Path, place: Place, v: Value, schema: Value, e: SchemaError)
  {
    at < e.at && e.at[|at|] == place && var spot := At(v, schema, e.at[|at| + 1..]); spot.Some? && Faulty(spot.value, e)
  }

  /**
    The validator reports an error exactly for a fault: its path leads, from the path of the call, to a part of the
    value that has the fault.
   */
  lemma {:induction false} FaultsExactly(v: Value, schema: Value, at: Path, e: SchemaError)
    requires UniqueKeys(schema) && Validate(v, schema, at).Errors?
    ensures e in Validate(v, schema, at).list <==>
      at <= e.at && var spot := At(v, schema, e.at[|at|..]); spot.Some? && Faulty(spot.value, e)
    decreases schema, 2
  {
    if at < e.at {
      assert e.at[|at|..][0] == e.at[|at|] && e.at[|at|..][1..] == e.at[|at| + 1..];
    } else if at == e.at {
      assert e.at[|at|..] == [];
    }
    if Typed(v, schema) {
      ContentFaults(v, schema, at, e);
      assert e in Validate(v, schema, at).list <==>
        e in ConstReport(v, schema.fields, at).list || e in ContentReport(v, schema, at).list;
    }
  }

  lemma {:induction false} ContentFaults(v: Value, schema: Value, at: Path, e: SchemaError)
    requires UniqueKeys(schema) && Typed(v, schema) && ContentReport(v, schema, at).Errors?
    ensures e in ContentReport(v, schema, at).list <==>
      || ((e.MissingRequired? || e.TooFewItems?) && e.at == at && Faulty(Spot(v, schema), e))
      || (v.Obj? && at < e.at && e.at[|at|].Key? &&
          var spot := AtKey(v.fields, Get(schema.fields, "properties"), e.at[|at|].key, e.at[|at| + 1..]);
          spot.Some? && Faulty(spot.value, e))
      || (v.Arr? && at < e.at && e.at[|at|].Index? &&
          var spot := AtIndex(v.items, Get(schema.fields, "items"), e.at[|at|].index, e.at[|at| + 1..]);
          spot.Some? && Faulty(spot.value, e))
    decreases schema, 1
  {
    var s := schema.fields;
    match v {
      case Obj(fields) =>
        RequiredExactly(s, fields, at, e);
        if Has(s, "properties") {
          FieldsHaveUniqueKeys(s, "properties");
          PropertyFaults(Get(s, "properties").value.fields, fields, at, e);
        }
      case Arr(items) =>
        if Has(s, "items") && Get(s, "items").value.Obj? {
          FieldsHaveUniqueKeys(s, "items");
          ItemFaults(items, Get(s, "items").value, at, 0, e);
        }
      case _ =>
    }
  }

  lemma {:induction false} PropertyFaults(props: seq<Field>, fields: seq<Field>, at: Path, e: SchemaError)
    requires UniqueKeys(Obj(props)) && PropertyErrors(props, fields, at).Errors?
    ensures e in PropertyErrors(props, fields, at).list <==>
      at < e.at && e.at[|at|].Key? && var key := e.at[|at|].key;
      Has(props, key) && Has(fields, key) && Below(at, Key(key), Get(fields, key).value, Get(props, key).value, e)
    decreases props, 3
  {
    if props != [] {
      var key := props[0].name;
      PropertyFaults(props[1..], fields, at, e);
      HasAmong(props[1..], key);
      if Has(fields, key) {
        FaultsExactly(Get(fields, key).value, props[0].val, at + [Key(key)], e);
        OneStepDown(at, Key(key), e.at);
      }
    }
  }

  lemma {:induction false} ItemFaults(items: seq<Value>, schema: Value, at: Path, index: nat, e: SchemaError)
    requires UniqueKeys(schema) && schema.Obj? && ItemErrors(items, schema, at, index).Errors?
    ensures e in ItemErrors(items, schema, at, index).list <==>
      at < e.at && e.at[|at|].Index? && var i := e.at[|at|].index;
      index <= i < index + |items| && Below(at, Index(i), items[i - index], schema, e)
    decreases schema, 3, items
  {
    if items != [] {
      FaultsExactly(items[0], schema, at + [Index(index)], e);
      OneStepDown(at, Index(index), e.at);
      ItemFaults(items[1..], schema, at, index + 1, e);
    }
  }

  // ---------------------------------------------------------------- in which order

  function Flat(parts: seq<seq<SchemaError>>): seq<SchemaError>
  {
    if parts == [] then [] else parts[0] + Flat(parts[1..])
  }

  function ListOf(r: Report): seq<SchemaError> { if r.Errors? then r.list else [] }

  function MissingAt(keys: seq<Value>, fields: seq<Field>, at: Path): seq<seq<SchemaError>>
  {
    seq(|keys|, i requires 0 <= i < |keys| =>
      if keys[i].Str? && Has(fields, keys[i].s) then [] else [MissingRequired(at, keys[i])])
  }

  function OfEachProperty(props: seq<Field>, fields: seq<Field>, at: Path): seq<seq<SchemaError>>
  {
    seq(|props|, i requires 0 <= i < |props| =>
      if Has(fields, props[i].name)
      then ListOf(Validate(Get(fields, props[i].name).value, props[i].val, at + [Key(props[i].name)])) else [])
  }

  function OfEachItem(items: seq<Value>, schema: Value, at: Path, index: nat): seq<seq<SchemaError>>
  {
    seq(|items|, i requires 0 <= i < |items| => ListOf(Validate(items[i], schema, at + [Index(index + i)])))
  }

  lemma {:induction false} MissingInOrder(keys: seq<Value>, fields: seq<Field>, at: Path)
    requires RequiredErrors(keys, fields, at).Errors?
    ensures RequiredErrors(keys, fields, at).list == Flat(MissingAt(keys, fields, at))
  {
    if keys != [] {
      MissingInOrder(keys[1..], fields, at);
      assert MissingAt(keys, fields, at)[1..] == MissingAt(keys[1..], fields, at);
    }
  }

  lemma {:induction false} PropertiesInOrder(props: seq<Field>, fields: seq<Field>, at: Path)
    requires PropertyErrors(props, fields, at).Errors?
    ensures PropertyErrors(props, fields, at).list == Flat(OfEachProperty(props, fields, at))
  {
    if props != [] {
      PropertiesInOrder(props[1..], fields, at);
      assert OfEachProperty(props, fields, at)[1..] == OfEachProperty(props[1..], fields, at);
    }
  }

  lemma {:induction false} ItemsInOrder(items: seq<Value>, schema: Value, at: Path, index: nat)
    requires ItemErrors(items, schema, at, index).Errors?
    ensures ItemErrors(items, schema, at, index).list == Flat(OfEachItem(items, schema, at, index))
    decreases items
  {
    if items != [] {
      ItemsInOrder(items[1..], schema, at, index + 1);
      assert OfEachItem(items, schema, at, index)[1..] == OfEachItem(items[1..], schema, at, index + 1);
    }
  }

  /** Of an object: the const first, then the missing keys as `required` lists them, then property by property. */
  lemma ObjectErrorsInOrder(fields: seq<Field>, s: seq<Field>, at: Path)
    requires Typed(Obj(fields), Obj(s)) && Validate(Obj(fields), Obj(s), at).Errors?
    ensures Validate(Obj(fields), Obj(s), at).list ==
      (if Has(s, "const") && !Same(Obj(fields), Get(s, "const").value)
       then [ConstMismatch(at, Get(s, "const").value)] else [])
      + (Flat(MissingAt(RequiredKeys(s), fields, at)) +
         (if Has(s, "properties") && Get(s, "properties").value.Obj?
          then Flat(OfEachProperty(Get(s, "properties").value.fields, fields, at)) else []))
  {
    var content, missing := ContentReport(Obj(fields), Obj(s), at), RequiredReport(s, fields, at);
    assert Validate(Obj(fields), Obj(s), at) == Then(ConstReport(Obj(fields), s, at), content);
    assert content == Then(missing, PropertiesReport(fields, Obj(s), at));
    match Get(s, "required") {
      case Some(Arr(values)) => MissingInOrder(values, fields, at);
      case Some(Obj(keys)) => KeysByIndex(keys); MissingInOrder(KeysOf(keys), fields, at);
      case Some(Str(text)) => CharactersByIndex(text); MissingInOrder(Characters(text), fields, at);
      case _ =>
    }
    if Has(s, "properties") { PropertiesInOrder(Get(s, "properties").value.fields, fields, at); }
  }

  /** Of an array: the const first, then the number of items, then item by item. */
  lemma ArrayErrorsInOrder(items: seq<Value>, s: seq<Field>, at: Path)
    requires Typed(Arr(items), Obj(s)) && Validate(Arr(items), Obj(s), at).Errors?
    ensures Validate(Arr(items), Obj(s), at).list ==
      (if Has(s, "const") && !Same(Arr(items), Get(s, "const").value)
       then [ConstMismatch(at, Get(s, "const").value)] else [])
      + (ListOf(MinItemsReport(s, |items|, at)) +
         (if Has(s, "items") && Get(s, "items").value.Obj?
          then Flat(OfEachItem(items, Get(s, "items").value, at, 0)) else []))
  {
    var content, few := ContentReport(Arr(items), Obj(s), at), MinItemsReport(s, |items|, at);
    assert Validate(Arr(items), Obj(s), at) == Then(ConstReport(Arr(items), s, at), content);
    assert content == Then(few, ItemsReport(items, Obj(s), at));
    if Has(s, "items") && Get(s, "items").value.Obj? { ItemsInOrder(items, Get(s, "items").value, at, 0); }
  }

  // ---------------------------------------------------------------- when it raises

  /** The schema of this part cannot be used: the validator raises where Python does. */
  predicate Malformed(spot: Spot)
  {
    var v, schema := spot.value, spot.schema;
    !schema.Obj? || ExpectedNames(schema.fields).None? ||
    (TypeMatches(v, ExpectedNames(schema.fields).value) &&
     ((v.Obj? && (RequiredUnusable(Get(schema.fields, "required")) || PropertiesUnusable(schema.fields))) ||
      (v.Arr? && Has(schema.fields, "minItems") && !Get(schema.fields, "minItems").value.Int?
       && !Get(schema.fields, "minItems").value.Bool?)))
  }

  /** Not something to iterate over, or something in it that cannot be a key. */
  predicate RequiredUnusable(required: Option<Value>)
  {
    required.Some? &&
    match required.value
    case Arr(keys) => exists i :: 0 <= i < |keys| && (keys[i].Arr? || keys[i].Obj?)
    case Obj(_) => false
    case Str(_) => false
    case _ => true
  }

  predicate PropertiesUnusable(s: seq<Field>)
  {
    Has(s, "properties") && !Get(s, "properties").value.Obj?
  }

  lemma {:induction false} UnhashableRaises(keys: seq<Value>, fields: seq<Field>, at: Path)
    ensures RequiredErrors(keys, fields, at).Raised? <==> exists i :: 0 <= i < |keys| && (keys[i].Arr? || keys[i].Obj?)
  {
    if keys != [] {
      UnhashableRaises(keys[1..], fields, at);
      assert forall i :: 1 <= i < |keys| ==> keys[i] == keys[1..][i - 1];
    }
  }

  lemma RequiredRaises(s: seq<Field>, fields: seq<Field>, at: Path)
    ensures RequiredReport(s, fields, at).Raised? <==> RequiredUnusable(Get(s, "required"))
  {
    match Get(s, "required") {
      case Some(Arr(values)) => UnhashableRaises(values, fields, at);
      case Some(Obj(keys)) => KeysByIndex(keys); UnhashableRaises(KeysOf(keys), fields, at);
      case Some(Str(text)) => CharactersByIndex(text); UnhashableRaises(Characters(text), fields, at);
      case _ =>
    }
  }

  lemma {:induction false} PropertyRaises(props: seq<Field>, fields: seq<Field>, at: Path, key: string)
    requires Has(props, key) && Has(fields, key)
    requires Validate(Get(fields, key).value, Get(props, key).value, at + [Key(key)]).Raised?
    ensures PropertyErrors(props, fields, at).Raised?
  {
    if props[0].name != key { PropertyRaises(props[1..], fields, at, key); }
  }

  lemma {:induction false} ItemRaises(items: seq<Value>, schema: Value, at: Path, index: nat, i: nat)
    requires i < |items| && Validate(items[i], schema, at + [Index(index + i)]).Raised?
    ensures ItemErrors(items, schema, at, index).Raised?
  {
    if i > 0 { ItemRaises(items[1..], schema, at, index + 1, i - 1); }
  }

  lemma RaisesHere(v: Value, schema: Value, at: Path)
    requires Malformed(Spot(v, schema))
    ensures Validate(v, schema, at).Raised?
  {
    if Typed(v, schema) {
      if v.Obj? {
        RequiredRaises(schema.fields, v.fields, at);
        assert PropertiesUnusable(schema.fields) ==> PropertiesReport(v.fields, schema, at).Raised?;
      }
      assert ContentReport(v, schema, at).Raised?;
    }
  }

  /** A part with an unusable schema makes the whole validation raise. */
  lemma {:induction false} MalformedRaises(v: Value, schema: Value, at: Path, path: Path)
    requires At(v, schema, path).Some? && Malformed(At(v, schema, path).value)
    ensures Validate(v, schema, at).Raised?
    decreases |path|
  {
    if path == [] {
      RaisesHere(v, schema, at);
    } else {
      match (path[0], v) {
        case (Key(key), Obj(fields)) =>
          var props := Get(schema.fields, "properties").value.fields;
          MalformedRaises(Get(fields, key).value, Get(props, key).value, at + [Key(key)], path[1..]);
          PropertyRaises(props, fields, at, key);
          assert ContentReport(v, schema, at).Raised?;
        case (Index(i), Arr(items)) =>
          var inner := Get(schema.fields, "items").value;
          MalformedRaises(items[i], inner, at + [Index(i)], path[1..]);
          ItemRaises(items, inner, at, 0, i);
          assert ItemsReport(items, schema, at).Raised?;
      }
    }
  }

  /** And only such a part does. */
  lemma {:induction false} WhereItRaises(v: Value, schema: Value, at: Path) returns (path: Path)
    requires UniqueKeys(schema) && Validate(v, schema, at).Raised?
    ensures At(v, schema, path).Some? && Malformed(At(v, schema, path).value)
    decreases schema, 2
  {
    path := [];
    if !Malformed(Spot(v, schema)) {
      var s := schema.fields;
      assert Typed(v, schema) && ContentReport(v, schema, at).Raised?;
      match v {
        case Obj(fields) =>
          RequiredRaises(s, fields, at);
          assert PropertiesReport(fields, schema, at).Raised?;
          FieldsHaveUniqueKeys(s, "properties");
          path := WhereAProperty(Get(s, "properties").value.fields, fields, at);
        case Arr(items) =>
          assert ItemsReport(items, schema, at).Raised?;
          FieldsHaveUniqueKeys(s, "items");
          path := WhereAnItem(items, Get(s, "items").value, at, 0);
      }
    }
  }

  lemma {:induction false} WhereAProperty(props: seq<Field>, fields: seq<Field>, at: Path) returns (path: Path)
    requires UniqueKeys(Obj(props)) && PropertyErrors(props, fields, at).Raised?
    ensures path != [] && path[0].Key?
    ensures var spot := AtKey(fields, Some(Obj(props)), path[0].key, path[1..]); spot.Some? && Malformed(spot.value)
    decreases props, 3
  {
    var key := props[0].name;
    if Has(fields, key) && Validate(Get(fields, key).value, props[0].val, at + [Key(key)]).Raised? {
      var rest := WhereItRaises(Get(fields, key).value, props[0].val, at + [Key(key)]);
      path := [Key(key)] + rest;
      assert path[1..] == rest;
    } else {
      path := WhereAProperty(props[1..], fields, at);
      HasAmong(props[1..], key);
    }
  }

  lemma {:induction false} WhereAnItem(items: seq<Value>, schema: Value, at: Path, index: nat) returns (path: Path)
    requires UniqueKeys(schema) && schema.Obj? && ItemErrors(items, schema, at, index).Raised?
    ensures path != [] && path[0].Index?
    ensures var spot := AtIndex(items, Some(schema), path[0].index, path[1..]); spot.Some? && Malformed(spot.value)
    decreases schema, 3, items
  {
    if Validate(items[0], schema, at + [Index(index)]).Raised? {
      var rest := WhereItRaises(items[0], schema, at + [Index(index)]);
      path := [Index(0)] + rest;
      assert path[1..] == rest;
    } else {
      var rest := WhereAnItem(items[1..], schema, at, index + 1);
      path := [Index(rest[0].index + 1)] + rest[1..];
      assert path[1..] == rest[1..];
    }
  }

  /** The validator raises exactly when some part that it reaches has a schema that cannot be used. */
  lemma RaisesExactly(v: Value, schema: Value, at: Path)
    requires UniqueKeys(schema)
    ensures Validate(v, schema, at).Raised? <==>
      exists path :: At(v, schema, path).Some? && Malformed(At(v, schema, path).value)
  {
    if Validate(v, schema, at).Raised? { var path := WhereItRaises(v, schema, at); }
    if path :| At(v, schema, path).Some? && Malformed(At(v, schema, path).value) {
      MalformedRaises(v, schema, at, path);
    }
  }
}
