/**
  For which schemas the provider projection is stricter: a test on the schema alone.  It decides whether
  some accepted value meets a const with a dropped key, by deciding which parts of a schema have a value at all.
 */
module OutputSchemaReach {
  import opened Basics
  import opened Json
  import opened OutputSchema

  // ---------------------------------------------------------------- acceptance without paths

  /** The keys an object needs, or None when iterating over `required` raises or meets what no key can be. */
  function Needed(s: seq<Field>): Option<seq<string>>
  {
    match Get(s, "required")
    case None => Some([])
    case Some(Arr(items)) => Strings(items)
    case Some(Obj(keys)) => Strings(KeysOf(keys))
    case Some(Str(text)) => Strings(Characters(text))
    case Some(_) => None
  }

  function Strings(keys: seq<Value>): Option<seq<string>>
  {
    if keys == [] then Some([])
    else if keys[0].Str? && Strings(keys[1..]).Some? then Some([keys[0].s] + Strings(keys[1..]).value)
    else None
  }

  function MinCount(s: seq<Field>): Option<int>
  {
    match Get(s, "minItems")
    case None => Some(0)
    case Some(Int(n)) => Some(n)
    case Some(Bool(b)) => Some(if b then 1 else 0)
    case Some(_) => None
  }

  predicate HasAll(fields: seq<Field>, keys: seq<string>) { forall i :: 0 <= i < |keys| ==> Has(fields, keys[i]) }

  /** The value is accepted. */
  predicate Fits(v: Value, schema: Value)
    decreases schema, 2
  {
    && schema.Obj? && ExpectedNames(schema.fields).Some? && TypeMatches(v, ExpectedNames(schema.fields).value)
    && (Has(schema.fields, "const") ==> Same(v, Get(schema.fields, "const").value))
    && FitsContent(v, schema)
  }

  predicate FitsContent(v: Value, schema: Value)
    requires schema.Obj?
    decreases schema, 1
  {
    var s := schema.fields;
    match v
    case Obj(fields) =>
      && Needed(s).Some? && HasAll(fields, Needed(s).value)
      && (Has(s, "properties") ==>
           Get(s, "properties").value.Obj? && FitsProps(fields, Get(s, "properties").value.fields))
    case Arr(items) =>
      && MinCount(s).Some? && MinCount(s).value <= |items|
      && (Has(s, "items") && Get(s, "items").value.Obj? ==> FitsItems(items, Get(s, "items").value))
    case _ => true
  }

  predicate FitsProps(fields: seq<Field>, props: seq<Field>)
    decreases props, 3
  {
    props == [] ||
    ((Has(fields, props[0].name) ==> Fits(Get(fields, props[0].name).value, props[0].val)) &&
     FitsProps(fields, props[1..]))
  }

  predicate FitsItems(items: seq<Value>, schema: Value)
    decreases schema, 3, items
  {
    items == [] || (Fits(items[0], schema) && FitsItems(items[1..], schema))
  }

  lemma {:induction false} RequiredHolds(keys: seq<Value>, fields: seq<Field>, at: Path)
    ensures RequiredErrors(keys, fields, at) == Errors([]) <==>
      Strings(keys).Some? && HasAll(fields, Strings(keys).value)
  {
    if keys != [] {
      RequiredHolds(keys[1..], fields, at);
      if keys[0].Str? && Strings(keys[1..]).Some? {
        var rest := Strings(keys[1..]).value;
        assert ([keys[0].s] + rest)[1..] == rest;
        assert HasAll(fields, [keys[0].s] + rest) <==> Has(fields, keys[0].s) && HasAll(fields, rest) by {
          if HasAll(fields, [keys[0].s] + rest) {
            assert ([keys[0].s] + rest)[0] == keys[0].s;
            forall i | 0 <= i < |rest| ensures Has(fields, rest[i]) { assert ([keys[0].s] + rest)[i + 1] == rest[i]; }
          }
        }
      }
    }
  }

  lemma {:induction false} FitsExactly(v: Value, schema: Value, at: Path)
    ensures Fits(v, schema) <==> Validate(v, schema, at) == Errors([])
    decreases schema, 2
  {
    if schema.Obj? { ContentFitsExactly(v, schema, at); }
  }

  lemma {:induction false} ContentFitsExactly(v: Value, schema: Value, at: Path)
    requires schema.Obj?
    ensures FitsContent(v, schema) <==> ContentReport(v, schema, at) == Errors([])
    decreases schema, 1
  {
    var s := schema.fields;
    match v {
      case Obj(fields) =>
        match Get(s, "required") {
          case Some(Arr(items)) => RequiredHolds(items, fields, at);
          case Some(Obj(keys)) => RequiredHolds(KeysOf(keys), fields, at);
          case Some(Str(text)) => RequiredHolds(Characters(text), fields, at);
          case _ =>
        }
        if Has(s, "properties") && Get(s, "properties").value.Obj? {
          PropsFitExactly(fields, Get(s, "properties").value.fields, at);
        }
      case Arr(items) =>
        if Has(s, "items") && Get(s, "items").value.Obj? { ItemsFitExactly(items, Get(s, "items").value, at, 0); }
      case _ =>
    }
  }

  lemma {:induction false} PropsFitExactly(fields: seq<Field>, props: seq<Field>, at: Path)
    ensures FitsProps(fields, props) <==> PropertyErrors(props, fields, at) == Errors([])
    decreases props, 3
  {
    if props != [] {
      PropsFitExactly(fields, props[1..], at);
      if Has(fields, props[0].name) {
        FitsExactly(Get(fields, props[0].name).value, props[0].val, at + [Key(props[0].name)]);
      }
    }
  }

  lemma {:induction false} ItemsFitExactly(items: seq<Value>, schema: Value, at: Path, index: nat)
    ensures FitsItems(items, schema) <==> ItemErrors(items, schema, at, index) == Errors([])
    decreases schema, 3, items
  {
    if items != [] {
      FitsExactly(items[0], schema, at + [Index(index)]);
      ItemsFitExactly(items[1..], schema, at, index + 1);
    }
  }

  // ---------------------------------------------------------------- acceptance, keyword by keyword

  lemma OneField(name: string, val: Value, key: string)
    ensures Get([Field(name, val)], key) == if key == name then Some(val) else None
  {
    assert [Field(name, val)][1..] == [];
  }

  /** The type table: a boolean is no number, and a name that is not in the table asks for nothing. */
  lemma TypeTable(v: Value, name: string, at: Path)
    ensures Validate(v, Obj([Field("type", Str(name))]), at) == Errors([]) <==>
      || (v.Null? && name == "null") || (v.Bool? && name == "boolean")
      || (v.Int? && (name == "integer" || name == "number")) || (v.Str? && name == "string")
      || (v.Arr? && name == "array") || (v.Obj? && name == "object")
      || (name != "null" && name != "boolean" && name != "integer" && name != "number" && name != "string"
          && name != "array" && name != "object")
  {
    var s := [Field("type", Str(name))];
    OneField("type", Str(name), "const");
    OneField("type", Str(name), "required");
    OneField("type", Str(name), "properties");
    OneField("type", Str(name), "minItems");
    OneField("type", Str(name), "items");
    assert [Str(name)][1..] == [] && KnownNames([]) == Some([]);
    assert ExpectedNames(s) == Some((if name in TYPE_NAMES then [name] else []) + []);
    assert ContentReport(v, Obj(s), at) == Errors([]) && ConstReport(v, s, at) == Errors([]);
    if name in TYPE_NAMES {
      assert [name] + [] == [name] && [name][0] == name;
      assert TypeMatches(v, [name]) <==> HasType(v, name);
    }
  }

  /** The names a list of types stands for, and when it raises. */
  lemma {:induction false} NamesInList(values: seq<Value>, name: string)
    ensures KnownNames(values).None? <==> exists i :: 0 <= i < |values| && (values[i].Arr? || values[i].Obj?)
    ensures KnownNames(values).Some? ==>
      (name in KnownNames(values).value <==> name in TYPE_NAMES && Str(name) in values)
  {
    if values != [] {
      NamesInList(values[1..], name);
      assert forall i :: 1 <= i < |values| ==> values[i] == values[1..][i - 1];
    }
  }

  lemma {:induction false} FitsEachProp(fields: seq<Field>, props: seq<Field>)
    ensures FitsProps(fields, props) <==>
      forall i :: 0 <= i < |props| && Has(fields, props[i].name) ==>
        Fits(Get(fields, props[i].name).value, props[i].val)
  {
    if props != [] {
      FitsEachProp(fields, props[1..]);
      assert forall i :: 1 <= i < |props| ==> props[i] == props[1..][i - 1];
    }
  }

  lemma {:induction false} FitsEachItem(items: seq<Value>, schema: Value)
    ensures FitsItems(items, schema) <==> forall i :: 0 <= i < |items| ==> Fits(items[i], schema)
    decreases items
  {
    if items != [] {
      FitsEachItem(items[1..], schema);
      assert forall i :: 1 <= i < |items| ==> items[i] == items[1..][i - 1];
    }
  }

  /** An object is accepted exactly for its type, its const, its required keys and each property that it has. */
  lemma ObjectAccepted(fields: seq<Field>, s: seq<Field>, at: Path)
    ensures Validate(Obj(fields), Obj(s), at) == Errors([]) <==>
      && ExpectedNames(s).Some? && (ExpectedNames(s).value == [] || "object" in ExpectedNames(s).value)
      && (Has(s, "const") ==> Same(Obj(fields), Get(s, "const").value))
      && Needed(s).Some? && (forall i :: 0 <= i < |Needed(s).value| ==> Has(fields, Needed(s).value[i]))
      && (Has(s, "properties") ==>
           && Get(s, "properties").value.Obj?
           && var props := Get(s, "properties").value.fields;
              forall i :: 0 <= i < |props| && Has(fields, props[i].name) ==>
                Validate(Get(fields, props[i].name).value, props[i].val, at + [Key(props[i].name)]) == Errors([]))
  {
    FitsExactly(Obj(fields), Obj(s), at);
    if Has(s, "properties") && Get(s, "properties").value.Obj? {
      var props := Get(s, "properties").value.fields;
      FitsEachProp(fields, props);
      forall i | 0 <= i < |props| && Has(fields, props[i].name)
        ensures Fits(Get(fields, props[i].name).value, props[i].val) <==>
          Validate(Get(fields, props[i].name).value, props[i].val, at + [Key(props[i].name)]) == Errors([])
      {
        FitsExactly(Get(fields, props[i].name).value, props[i].val, at + [Key(props[i].name)]);
      }
    }
  }

  /** An array is accepted exactly for its type, its const, its length and, under an object schema, each item. */
  lemma ArrayAccepted(items: seq<Value>, s: seq<Field>, at: Path)
    ensures Validate(Arr(items), Obj(s), at) == Errors([]) <==>
      && ExpectedNames(s).Some? && (ExpectedNames(s).value == [] || "array" in ExpectedNames(s).value)
      && (Has(s, "const") ==> Same(Arr(items), Get(s, "const").value))
      && (Has(s, "minItems") ==>
           || (Get(s, "minItems").value.Int? && Get(s, "minItems").value.n <= |items|)
           || (Get(s, "minItems").value.Bool? && (Get(s, "minItems").value.b ==> items != [])))
      && (Has(s, "items") && Get(s, "items").value.Obj? ==>
           forall i :: 0 <= i < |items| ==>
             Validate(items[i], Get(s, "items").value, at + [Index(i)]) == Errors([]))
  {
    FitsExactly(Arr(items), Obj(s), at);
    if Has(s, "items") && Get(s, "items").value.Obj? {
      var inner := Get(s, "items").value;
      FitsEachItem(items, inner);
      forall i | 0 <= i < |items|
        ensures Fits(items[i], inner) <==> Validate(items[i], inner, at + [Index(i)]) == Errors([])
      {
        FitsExactly(items[i], inner, at + [Index(i)]);
      }
    }
  }

  /** Anything else is accepted exactly for its type and its const; a value of the wrong type gets that error alone. */
  lemma ScalarAccepted(v: Value, s: seq<Field>, at: Path)
    ensures !v.Obj? && !v.Arr? ==>
      (Validate(v, Obj(s), at) == Errors([]) <==>
        && ExpectedNames(s).Some? && TypeMatches(v, ExpectedNames(s).value)
        && (Has(s, "const") ==> Same(v, Get(s, "const").value)))
    ensures ExpectedNames(s).Some? && !TypeMatches(v, ExpectedNames(s).value) ==>
      Validate(v, Obj(s), at) == Errors([WrongType(at, ExpectedNames(s).value)])
    ensures ExpectedNames(s).None? ==> Validate(v, Obj(s), at) == Raised
  {
    FitsExactly(v, Obj(s), at);
  }

  // ---------------------------------------------------------------- equal values are accepted alike

  lemma {:induction false} SameReflexive(a: Value)
    requires UniqueKeys(a)
    ensures Same(a, a)
    decreases a
  {
    match a {
      case Arr(x) =>
        forall i | 0 <= i < |x| ensures Same(x[i], x[i]) { SameReflexive(x[i]); }
        AllItemsSame(x, x);
      case Obj(x) =>
        forall i | 0 <= i < |x| ensures Has(x, x[i].name) && Same(x[i].val, Get(x, x[i].name).value) {
          GetIsField(x, i);
          SameReflexive(x[i].val);
        }
        AllSame(x, x);
      case _ =>
    }
  }

  lemma {:induction false} AllSame(x: seq<Field>, y: seq<Field>)
    requires forall i :: 0 <= i < |x| ==> Has(y, x[i].name) && Same(x[i].val, Get(y, x[i].name).value)
    ensures SameFields(x, y)
  {
    if x != [] {
      assert forall i :: 0 <= i < |x[1..]| ==> x[1..][i] == x[i + 1];
      AllSame(x[1..], y);
    }
  }

  lemma {:induction false} SameItem(x: seq<Value>, y: seq<Value>, i: nat)
    requires |x| == |y| && i < |x| && SameItems(x, y)
    ensures Same(x[i], y[i])
  {
    if i > 0 { SameItem(x[1..], y[1..], i - 1); }
  }

  lemma {:induction false} AllItemsSame(x: seq<Value>, y: seq<Value>)
    requires |x| == |y| && forall i :: 0 <= i < |x| ==> Same(x[i], y[i])
    ensures SameItems(x, y)
  {
    if x != [] {
      assert forall i :: 0 <= i < |x[1..]| ==> x[1..][i] == x[i + 1] && y[1..][i] == y[i + 1];
      AllItemsSame(x[1..], y[1..]);
    }
  }

  lemma {:induction false} SameSymmetric(a: Value, b: Value)
    requires UniqueKeys(a) && UniqueKeys(b) && Same(a, b)
    ensures Same(b, a)
    decreases a
  {
    match (a, b) {
      case (Arr(x), Arr(y)) =>
        forall i | 0 <= i < |x| ensures Same(y[i], x[i]) {
          SameItem(x, y, i);
          SameSymmetric(x[i], y[i]);
        }
        AllItemsSame(y, x);
      case (Obj(x), Obj(y)) =>
        forall j | 0 <= j < |y| ensures Has(x, y[j].name) && Same(y[j].val, Get(x, y[j].name).value) {
          var i := FieldOnBothSides(x, y, j);
          GetIsField(x, i);
          SameSymmetric(x[i].val, y[j].val);
        }
        AllSame(y, x);
      case _ =>
    }
  }

  /** A field found by name is one of the fields. */
  lemma {:induction false} FieldFound(fields: seq<Field>, key: string) returns (i: nat)
    requires Has(fields, key)
    ensures i < |fields| && fields[i] == Field(key, Get(fields, key).value)
  {
    if fields[0].name == key {
      i := 0;
    } else {
      i := FieldFound(fields[1..], key);
      i := i + 1;
    }
  }

  lemma {:induction false} SameTransitive(a: Value, b: Value, c: Value)
    requires Same(a, b) && Same(b, c)
    ensures Same(a, c)
    decreases a
  {
    match (a, b, c) {
      case (Arr(x), Arr(y), Arr(z)) =>
        forall i | 0 <= i < |x| ensures Same(x[i], z[i]) {
          SameItem(x, y, i);
          SameItem(y, z, i);
          SameTransitive(x[i], y[i], z[i]);
        }
        AllItemsSame(x, z);
      case (Obj(x), Obj(y), Obj(z)) =>
        forall i | 0 <= i < |x| ensures Has(z, x[i].name) && Same(x[i].val, Get(z, x[i].name).value) {
          SameFieldsAt(x, y, i);
          var j := FieldFound(y, x[i].name);
          SameFieldsAt(y, z, j);
          SameTransitive(x[i].val, y[j].val, Get(z, x[i].name).value);
        }
        AllSame(x, z);
      case _ =>
    }
  }

  /** Equal objects have the same keys, with equal values. */
  lemma SameAt(x: seq<Field>, y: seq<Field>, key: string)
    requires UniqueKeys(Obj(x)) && UniqueKeys(Obj(y)) && Same(Obj(x), Obj(y))
    ensures Has(x, key) <==> Has(y, key)
    ensures Has(x, key) ==>
      Same(Get(x, key).value, Get(y, key).value) && UniqueKeys(Get(x, key).value) && UniqueKeys(Get(y, key).value)
  {
    if Has(x, key) {
      var i := FieldFound(x, key);
      SameFieldsAt(x, y, i);
      var j := FieldFound(y, key);
    }
    if Has(y, key) {
      var j := FieldFound(y, key);
      var i := FieldOnBothSides(x, y, j);
      GetIsField(x, i);
    }
  }

  ghost predicate Alike(a: Value, b: Value) { UniqueKeys(a) && UniqueKeys(b) && Same(a, b) }

  lemma {:induction false} AlikeFits(a: Value, b: Value, schema: Value)
    requires Alike(a, b) && Fits(a, schema)
    ensures Fits(b, schema) && (MeetsDirtyConst(a, schema) ==> MeetsDirtyConst(b, schema))
    decreases schema, 2
  {
    SameSymmetric(a, b);
    var s := schema.fields;
    var names := ExpectedNames(s).value;
    if names != [] {
      var i :| 0 <= i < |names| && HasType(a, names[i]);
      assert HasType(b, names[i]);
    }
    if Has(s, "const") { SameTransitive(b, a, Get(s, "const").value); }
    AlikeContent(a, b, schema);
  }

  lemma {:induction false} AlikeContent(a: Value, b: Value, schema: Value)
    requires Alike(a, b) && schema.Obj? && FitsContent(a, schema)
    ensures FitsContent(b, schema) && (ContentMeetsDirtyConst(a, schema) ==> ContentMeetsDirtyConst(b, schema))
    decreases schema, 1
  {
    var s := schema.fields;
    match (a, b) {
      case (Obj(x), Obj(y)) =>
        forall i | 0 <= i < |Needed(s).value| ensures Has(y, Needed(s).value[i]) { SameAt(x, y, Needed(s).value[i]); }
        if Has(s, "properties") { AlikeProps(x, y, Get(s, "properties").value.fields); }
      case (Arr(x), Arr(y)) =>
        forall i | 0 <= i < |x| ensures Alike(x[i], y[i]) { SameItem(x, y, i); }
        if Has(s, "items") {
          if Get(s, "items").value.Obj? {
            AlikeItems(x, y, Get(s, "items").value);
          } else {
            NothingToMeet(x, Get(s, "items").value);
          }
        }
      case _ =>
    }
  }

  lemma {:induction false} AlikeProps(x: seq<Field>, y: seq<Field>, props: seq<Field>)
    requires Alike(Obj(x), Obj(y)) && FitsProps(x, props)
    ensures FitsProps(y, props) && (PropertyMeetsDirtyConst(props, x) ==> PropertyMeetsDirtyConst(props, y))
    decreases props, 3
  {
    if props != [] {
      AlikeProps(x, y, props[1..]);
      SameAt(x, y, props[0].name);
      if Has(x, props[0].name) { AlikeFits(Get(x, props[0].name).value, Get(y, props[0].name).value, props[0].val); }
    }
  }

  lemma {:induction false} AlikeItems(x: seq<Value>, y: seq<Value>, schema: Value)
    requires |x| == |y| && (forall i :: 0 <= i < |x| ==> Alike(x[i], y[i])) && FitsItems(x, schema)
    ensures FitsItems(y, schema) && (ItemMeetsDirtyConst(x, schema) ==> ItemMeetsDirtyConst(y, schema))
    decreases schema, 3, x
  {
    if x != [] {
      assert forall i :: 0 <= i < |x[1..]| ==> x[1..][i] == x[i + 1] && y[1..][i] == y[i + 1];
      AlikeFits(x[0], y[0], schema);
      AlikeItems(x[1..], y[1..], schema);
    }
  }

  // ---------------------------------------------------------------- which schemas have a value

  predicate Allows(names: seq<string>, name: string) { names == [] || name in names }

  /** Some type is allowed whose values have no content. */
  predicate AllowsScalar(names: seq<string>)
  {
    names == [] || exists i :: 0 <= i < |names| && names[i] != "object" && names[i] != "array"
  }

  /** Some value is accepted. */
  predicate Inhabited(schema: Value)
    decreases schema, 2
  {
    schema.Obj? && ExpectedNames(schema.fields).Some? &&
    var s, names := schema.fields, ExpectedNames(schema.fields).value;
    if Has(s, "const") then Fits(Get(s, "const").value, schema)
    else
      || AllowsScalar(names)
      || (Allows(names, "object") && ObjectPossible(schema))
      || (Allows(names, "array") && ArrayPossible(schema))
  }

  /** Some object has acceptable content: every needed key that has a schema has a value. */
  predicate ObjectPossible(schema: Value)
    requires schema.Obj?
    decreases schema, 1
  {
    var s := schema.fields;
    && Needed(s).Some?
    && (Has(s, "properties") ==>
         Get(s, "properties").value.Obj? && NeededPossible(Needed(s).value, Get(s, "properties").value.fields))
  }

  predicate NeededPossible(needed: seq<string>, props: seq<Field>)
    decreases props, 3
  {
    props == [] || ((props[0].name in needed ==> Inhabited(props[0].val)) && NeededPossible(needed, props[1..]))
  }

  predicate ArrayPossible(schema: Value)
    requires schema.Obj?
    decreases schema, 1
  {
    var s := schema.fields;
    && MinCount(s).Some?
    && (MinCount(s).value <= 0 || (Has(s, "items") && Get(s, "items").value.Obj? ==> Inhabited(Get(s, "items").value)))
  }

  /** Some accepted value meets a const with a dropped key: a test on the schema alone. */
  predicate CanMeet(schema: Value)
    decreases schema, 2
  {
    schema.Obj? && ExpectedNames(schema.fields).Some? &&
    var s, names := schema.fields, ExpectedNames(schema.fields).value;
    if Has(s, "const") then
      Fits(Get(s, "const").value, schema) && MeetsDirtyConst(Get(s, "const").value, schema)
    else
      || (Allows(names, "object") && ObjectPossible(schema)
          && Has(s, "properties") && PropertyCanMeet(Get(s, "properties").value.fields))
      || (Allows(names, "array") && MinCount(s).Some?
          && Has(s, "items") && Get(s, "items").value.Obj? && CanMeet(Get(s, "items").value))
  }

  predicate PropertyCanMeet(props: seq<Field>)
    decreases props, 3
  {
    props != [] && ((props[0].name !in UNSUPPORTED && CanMeet(props[0].val)) || PropertyCanMeet(props[1..]))
  }

  // ---------------------------------------------------------------- an accepted value passes the tests

  lemma {:induction false} FitsInhabits(v: Value, schema: Value)
    requires UniqueKeys(v) && UniqueKeys(schema) && Fits(v, schema)
    ensures Inhabited(schema) && (MeetsDirtyConst(v, schema) ==> CanMeet(schema))
    decreases schema, 2
  {
    var s := schema.fields;
    if Has(s, "const") {
      GetUnique(s, "const");
      AlikeFits(v, Get(s, "const").value, schema);
    } else {
      match v {
        case Obj(fields) => ObjectInhabits(fields, schema);
        case Arr(items) => ArrayInhabits(items, schema);
        case _ => assert !ContentMeetsDirtyConst(v, schema);
      }
    }
  }

  lemma {:induction false} ObjectInhabits(fields: seq<Field>, schema: Value)
    requires UniqueKeys(Obj(fields)) && UniqueKeys(schema) && schema.Obj? && FitsContent(Obj(fields), schema)
    ensures ObjectPossible(schema)
    ensures ContentMeetsDirtyConst(Obj(fields), schema) ==>
      PropertyCanMeet(Get(schema.fields, "properties").value.fields)
    decreases schema, 1
  {
    var s := schema.fields;
    if Has(s, "properties") {
      GetUnique(s, "properties");
      PropsInhabit(fields, Get(s, "properties").value.fields, Needed(s).value);
    }
  }

  lemma {:induction false} PropsInhabit(fields: seq<Field>, props: seq<Field>, needed: seq<string>)
    requires UniqueKeys(Obj(fields)) && (forall i :: 0 <= i < |props| ==> UniqueKeys(props[i].val))
    requires HasAll(fields, needed) && FitsProps(fields, props)
    ensures NeededPossible(needed, props) && (PropertyMeetsDirtyConst(props, fields) ==> PropertyCanMeet(props))
    decreases props, 3
  {
    if props != [] {
      assert forall i :: 0 <= i < |props[1..]| ==> props[1..][i] == props[i + 1];
      PropsInhabit(fields, props[1..], needed);
      if Has(fields, props[0].name) {
        GetUnique(fields, props[0].name);
        FitsInhabits(Get(fields, props[0].name).value, props[0].val);
      }
    }
  }

  lemma {:induction false} ArrayInhabits(items: seq<Value>, schema: Value)
    requires UniqueKeys(Arr(items)) && UniqueKeys(schema) && schema.Obj? && FitsContent(Arr(items), schema)
    ensures ArrayPossible(schema)
    ensures ContentMeetsDirtyConst(Arr(items), schema) ==>
      Get(schema.fields, "items").value.Obj? && CanMeet(Get(schema.fields, "items").value)
    decreases schema, 1
  {
    var s := schema.fields;
    if Has(s, "items") {
      var inner := Get(s, "items").value;
      GetUnique(s, "items");
      if inner.Obj? { ItemsInhabit(items, inner); } else { NothingToMeet(items, inner); }
    }
  }

  lemma {:induction false} ItemsInhabit(items: seq<Value>, schema: Value)
    requires (forall i :: 0 <= i < |items| ==> UniqueKeys(items[i])) && UniqueKeys(schema) && FitsItems(items, schema)
    ensures items != [] ==> Inhabited(schema)
    ensures ItemMeetsDirtyConst(items, schema) ==> CanMeet(schema)
    decreases schema, 3, items
  {
    if items != [] {
      FitsInhabits(items[0], schema);
      ItemsInhabit(items[1..], schema);
    }
  }

  // ---------------------------------------------------------------- what passes the tests has a value

  lemma {:induction false} NamesAreKnown(values: seq<Value>)
    ensures KnownNames(values).Some? ==>
      forall i :: 0 <= i < |KnownNames(values).value| ==> KnownNames(values).value[i] in TYPE_NAMES
  {
    if values != [] { NamesAreKnown(values[1..]); }
  }

  lemma ScalarOf(s: seq<Field>) returns (v: Value)
    requires ExpectedNames(s).Some? && AllowsScalar(ExpectedNames(s).value)
    ensures TypeMatches(v, ExpectedNames(s).value) && !v.Obj? && !v.Arr?
  {
    var names := ExpectedNames(s).value;
    v := Null;
    if names != [] {
      match Get(s, "type") {
        case Some(Str(t)) => NamesAreKnown([Str(t)]);
        case Some(Arr(items)) => NamesAreKnown(items);
        case _ =>
      }
      var i :| 0 <= i < |names| && names[i] != "object" && names[i] != "array";
      v := match names[i]
        case "string" => Str("")
        case "boolean" => Bool(true)
        case "null" => Null
        case _ => Int(0);
      assert HasType(v, names[i]);
    }
  }

  /** Every field is acceptable to the schema of its name. */
  ghost predicate Suits(fields: seq<Field>, props: seq<Field>)
  {
    && UniqueNames(fields)
    && forall i :: 0 <= i < |fields| ==>
         && UniqueKeys(fields[i].val)
         && (Has(props, fields[i].name) ==> Fits(fields[i].val, Get(props, fields[i].name).value))
  }

  lemma {:induction false} SuitableFits(fields: seq<Field>, props: seq<Field>, k: nat)
    requires Suits(fields, props) && UniqueNames(props) && k <= |props|
    ensures FitsProps(fields, props[k..])
    decreases |props| - k
  {
    if k < |props| {
      assert props[k..][1..] == props[k + 1..];
      SuitableFits(fields, props, k + 1);
      if Has(fields, props[k].name) {
        var i := FieldFound(fields, props[k].name);
        GetIsField(props, k);
      }
    }
  }

  lemma {:induction false} NeededAt(needed: seq<string>, props: seq<Field>, name: string)
    requires NeededPossible(needed, props) && name in needed && Has(props, name)
    ensures Inhabited(Get(props, name).value)
  {
    if props[0].name != name { NeededAt(needed, props[1..], name); }
  }

  lemma {:induction false} GetLonger(fields: seq<Field>, f: Field, key: string)
    ensures Get(fields + [f], key) ==
      if Has(fields, key) then Get(fields, key) else if f.name == key then Some(f.val) else None
  {
    if fields == [] {
      assert fields + [f] == [f] && [f][1..] == [];
    } else {
      assert (fields + [f])[1..] == fields[1..] + [f];
      GetLonger(fields[1..], f, key);
    }
  }

  lemma OneMoreSuits(fields: seq<Field>, props: seq<Field>, f: Field)
    requires Suits(fields, props) && !Has(fields, f.name) && UniqueKeys(f.val)
    requires Has(props, f.name) ==> Fits(f.val, Get(props, f.name).value)
    ensures Suits(fields + [f], props)
  {
    forall i | 0 <= i < |fields| ensures fields[i].name != f.name { GetIsField(fields, i); }
  }

  ghost function PropsOf(s: seq<Field>): (props: seq<Field>)
  {
    if Has(s, "properties") && Get(s, "properties").value.Obj? then Get(s, "properties").value.fields else []
  }

  /** Fill in the needed keys that are missing. */
  lemma {:induction false} Fill(schema: Value, fields: seq<Field>, needed: seq<string>) returns (filled: seq<Field>)
    requires UniqueKeys(schema) && schema.Obj? && ObjectPossible(schema) && Suits(fields, PropsOf(schema.fields))
    requires forall i :: 0 <= i < |needed| ==> needed[i] in Needed(schema.fields).value
    ensures Suits(filled, PropsOf(schema.fields)) && HasAll(filled, needed)
    ensures forall key :: Has(fields, key) ==> Get(filled, key) == Get(fields, key)
    decreases schema, 0, |needed| + 1
  {
    if needed == [] {
      filled := fields;
    } else {
      var key := needed[0];
      var longer := fields;
      if !Has(fields, key) {
        var v := ValueFor(schema, key);
        longer := fields + [Field(key, v)];
        OneMoreSuits(fields, PropsOf(schema.fields), Field(key, v));
        forall k ensures Has(fields, k) ==> Get(longer, k) == Get(fields, k) { GetLonger(fields, Field(key, v), k); }
        GetLonger(fields, Field(key, v), key);
      }
      assert forall i :: 0 <= i < |needed[1..]| ==> needed[1..][i] == needed[i + 1];
      filled := Fill(schema, longer, needed[1..]);
      forall i | 0 <= i < |needed| ensures Has(filled, needed[i]) {
        if i == 0 { assert Has(longer, key); } else { assert needed[1..][i - 1] == needed[i]; }
      }
    }
  }

  /** A value for a needed key: any at all when it has no schema. */
  lemma {:induction false} ValueFor(schema: Value, key: string) returns (v: Value)
    requires UniqueKeys(schema) && schema.Obj? && ObjectPossible(schema) && key in Needed(schema.fields).value
    ensures UniqueKeys(v) && (Has(PropsOf(schema.fields), key) ==> Fits(v, Get(PropsOf(schema.fields), key).value))
    decreases schema, 0, 0
  {
    var s := schema.fields;
    v := Null;
    if Has(PropsOf(s), key) {
      var props := Get(s, "properties").value.fields;
      GetUnique(s, "properties");
      NeededAt(Needed(s).value, props, key);
      GetUnique(props, key);
      v := Inhabitant(Get(props, key).value);
    }
  }

  lemma {:induction false} Repeated(v: Value, schema: Value, n: nat)
    requires Fits(v, schema)
    ensures FitsItems(seq(n, _ => v), schema)
    ensures n > 0 && MeetsDirtyConst(v, schema) ==> ItemMeetsDirtyConst(seq(n, _ => v), schema)
  {
    if n > 0 {
      assert seq(n, _ => v)[1..] == seq(n - 1, _ => v);
      Repeated(v, schema, n - 1);
    }
  }

  lemma ObjectFits(fields: seq<Field>, schema: Value)
    requires UniqueKeys(schema) && schema.Obj? && ObjectPossible(schema) && Suits(fields, PropsOf(schema.fields))
    requires HasAll(fields, Needed(schema.fields).value)
    ensures UniqueKeys(Obj(fields)) && FitsContent(Obj(fields), schema)
  {
    var s := schema.fields;
    if Has(s, "properties") {
      GetUnique(s, "properties");
      SuitableFits(fields, PropsOf(s), 0);
      assert PropsOf(s)[0..] == PropsOf(s);
    }
  }

  lemma {:induction false} Inhabitant(schema: Value) returns (v: Value)
    requires UniqueKeys(schema) && Inhabited(schema)
    ensures UniqueKeys(v) && Fits(v, schema)
    decreases schema, 2
  {
    var s, names := schema.fields, ExpectedNames(schema.fields).value;
    if Has(s, "const") {
      GetUnique(s, "const");
      v := Get(s, "const").value;
    } else if AllowsScalar(names) {
      v := ScalarOf(s);
    } else if Allows(names, "object") && ObjectPossible(schema) {
      var fields := Fill(schema, [], Needed(s).value);
      v := Obj(fields);
      ObjectFits(fields, schema);
      assert TypeMatches(v, names);
    } else {
      v := FilledArray(schema);
      assert TypeMatches(v, names);
    }
  }

  lemma {:induction false} FilledArray(schema: Value) returns (v: Value)
    requires UniqueKeys(schema) && schema.Obj? && ArrayPossible(schema)
    ensures v.Arr? && UniqueKeys(v) && FitsContent(v, schema)
    decreases schema, 1
  {
    var s := schema.fields;
    var count: nat := Max(0, MinCount(s).value);
    var item := Null;
    if count > 0 && Has(s, "items") && Get(s, "items").value.Obj? {
      GetUnique(s, "items");
      item := Inhabitant(Get(s, "items").value);
    }
    v := Arr(seq(count, _ => item));
    if count > 0 && Has(s, "items") && Get(s, "items").value.Obj? { Repeated(item, Get(s, "items").value, count); }
  }

  // ---------------------------------------------------------------- a value that meets a dirty const

  lemma {:induction false} MeetsAt(props: seq<Field>, fields: seq<Field>, k: nat)
    requires k < |props| && props[k].name !in UNSUPPORTED && Has(fields, props[k].name)
    requires MeetsDirtyConst(Get(fields, props[k].name).value, props[k].val)
    ensures PropertyMeetsDirtyConst(props, fields)
  {
    if k > 0 { MeetsAt(props[1..], fields, k - 1); }
  }

  lemma {:induction false} WhichProperty(props: seq<Field>) returns (k: nat)
    requires PropertyCanMeet(props)
    ensures k < |props| && props[k].name !in UNSUPPORTED && CanMeet(props[k].val)
  {
    if props[0].name !in UNSUPPORTED && CanMeet(props[0].val) {
      k := 0;
    } else {
      k := WhichProperty(props[1..]);
      k := k + 1;
    }
  }

  lemma {:induction false} MeetingValue(schema: Value) returns (v: Value)
    requires UniqueKeys(schema) && CanMeet(schema)
    ensures UniqueKeys(v) && Fits(v, schema) && MeetsDirtyConst(v, schema)
    decreases schema, 2
  {
    var s, names := schema.fields, ExpectedNames(schema.fields).value;
    if Has(s, "const") {
      GetUnique(s, "const");
      v := Get(s, "const").value;
    } else if Allows(names, "object") && ObjectPossible(schema)
              && Has(s, "properties") && PropertyCanMeet(Get(s, "properties").value.fields) {
      v := MeetingObject(schema);
      assert TypeMatches(v, names);
    } else {
      v := MeetingArray(schema);
      assert TypeMatches(v, names);
    }
  }

  lemma {:induction false} MeetingObject(schema: Value) returns (v: Value)
    requires UniqueKeys(schema) && schema.Obj? && ObjectPossible(schema)
    requires Has(schema.fields, "properties") && PropertyCanMeet(Get(schema.fields, "properties").value.fields)
    ensures v.Obj? && UniqueKeys(v) && FitsContent(v, schema) && ContentMeetsDirtyConst(v, schema)
    decreases schema, 1
  {
    var s := schema.fields;
    var props := Get(s, "properties").value.fields;
    GetUnique(s, "properties");
    var k := WhichProperty(props);
    var inner := MeetingValue(props[k].val);
    GetIsField(props, k);
    var start := [Field(props[k].name, inner)];
    assert Get(start, props[k].name) == Some(inner);
    var fields := Fill(schema, start, Needed(s).value);
    ObjectFits(fields, schema);
    MeetsAt(props, fields, k);
    v := Obj(fields);
  }

  lemma {:induction false} MeetingArray(schema: Value) returns (v: Value)
    requires UniqueKeys(schema) && schema.Obj? && MinCount(schema.fields).Some?
    requires Has(schema.fields, "items") && Get(schema.fields, "items").value.Obj? &&
      CanMeet(Get(schema.fields, "items").value)
    ensures v.Arr? && UniqueKeys(v) && FitsContent(v, schema) && ContentMeetsDirtyConst(v, schema)
    decreases schema, 1
  {
    var s := schema.fields;
    GetUnique(s, "items");
    var item := MeetingValue(Get(s, "items").value);
    var count: nat := Max(1, MinCount(s).value);
    Repeated(item, Get(s, "items").value, count);
    v := Arr(seq(count, _ => item));
  }

  // ---------------------------------------------------------------- the theorem

  /** The projection is never stricter exactly for the schemas that fail the test. */
  lemma StricterExactly(schema: Value)
    requires UniqueKeys(schema)
    ensures (forall value | Accepts(schema, value) :: Accepts(Compatible(schema), value)) <==> !CanMeet(schema)
  {
    if CanMeet(schema) {
      var v := MeetingValue(schema);
      FitsExactly(v, schema, []);
      ProjectionAcceptsExactly(v, schema, []);
      assert Accepts(schema, v) && !Accepts(Compatible(schema), v);
    } else {
      forall value | Accepts(schema, value) ensures Accepts(Compatible(schema), value) {
        FitsExactly(value, schema, []);
        FitsInhabits(value, schema);
        ProjectionAcceptsExactly(value, schema, []);
      }
    }
  }

  /** Some value is accepted exactly for the schemas that pass the other test. */
  lemma InhabitedExactly(schema: Value)
    requires UniqueKeys(schema)
    ensures (exists value :: Accepts(schema, value)) <==> Inhabited(schema)
  {
    if Inhabited(schema) {
      var v := Inhabitant(schema);
      FitsExactly(v, schema, []);
      assert Accepts(schema, v);
    }
    if value :| Accepts(schema, value) {
      FitsExactly(value, schema, []);
      FitsInhabits(value, schema);
    }
  }
}
