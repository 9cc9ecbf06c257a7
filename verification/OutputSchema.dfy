/**
  The schema handed to the provider is a projection of the one the runner validates with.
  Dropping keywords never makes the projection stricter.
 */
module OutputSchema {
  import opened Basics
  import opened Json

  const UNSUPPORTED: set<string> := {"uniqueItems", "allOf", "if", "then", "else"}

  function Compatible(j: Value): Value
    decreases j, 1
  {
    match j
    case Obj(fields) => Obj(CompatibleFields(fields))
    case Arr(items) => Arr(CompatibleItems(items))
    case _ => j
  }

  function CompatibleFields(fields: seq<Field>): seq<Field>
    decreases fields, 0
  {
    if fields == [] then []
    else
      (if fields[0].name in UNSUPPORTED then [] else [Field(fields[0].name, Compatible(fields[0].val))])
      + CompatibleFields(fields[1..])
  }

  function CompatibleItems(items: seq<Value>): seq<Value>
    decreases items, 0
  {
    if items == [] then [] else [Compatible(items[0])] + CompatibleItems(items[1..])
  }

  // ---------------------------------------------------------------- the validator

  datatype Place = Key(key: string) | Index(index: nat)

  type Path = seq<Place>

  datatype SchemaError =
    | WrongType(at: Path, names: seq<string>)
    | ConstMismatch(at: Path, expected: Value)
    | MissingRequired(at: Path, key: Value)
    | TooFewItems(at: Path, minItems: int)

  /** Either the list of errors, or an exception raised by a malformed schema. */
  datatype Report = Raised | Errors(list: seq<SchemaError>)

  function Then(a: Report, b: Report): Report
  {
    if a.Raised? || b.Raised? then Raised else Errors(a.list + b.list)
  }

  const TYPE_NAMES: set<string> := {"object", "array", "string", "number", "integer", "boolean", "null"}

  predicate HasType(value: Value, name: string)
  {
    match value
    case Obj(_) => name == "object"
    case Arr(_) => name == "array"
    case Str(_) => name == "string"
    case Int(_) => name == "number" || name == "integer"
    case Bool(_) => name == "boolean"
    case Null => name == "null"
  }

  /** A list or object is unhashable, so looking it up among the type names raises. */
  function KnownNames(names: seq<Value>): Option<seq<string>>
  {
    if names == [] then Some([])
    else if names[0].Arr? || names[0].Obj? || KnownNames(names[1..]).None? then None
    else Some((if names[0].Str? && names[0].s in TYPE_NAMES then [names[0].s] else []) + KnownNames(names[1..]).value)
  }

  function ExpectedNames(schema: seq<Field>): Option<seq<string>>
  {
    match Get(schema, "type")
    case Some(Str(s)) => KnownNames([Str(s)])
    case Some(Arr(items)) => KnownNames(items)
    case _ => Some([])
  }

  function RequiredErrors(keys: seq<Value>, fields: seq<Field>, at: Path): Report
  {
    if keys == [] then Errors([])
    else if keys[0].Arr? || keys[0].Obj? then Raised
    else Then(Errors(if keys[0].Str? && Has(fields, keys[0].s) then [] else [MissingRequired(at, keys[0])]),
              RequiredErrors(keys[1..], fields, at))
  }

  function KeysOf(fields: seq<Field>): seq<Value>
  {
    if fields == [] then [] else [Str(fields[0].name)] + KeysOf(fields[1..])
  }

  function Characters(s: string): seq<Value>
  {
    if s == "" then [] else [Str([s[0]])] + Characters(s[1..])
  }

  /** Python iterates a list, an object's keys, or a string's characters; anything else raises. */
  function RequiredReport(schema: seq<Field>, fields: seq<Field>, at: Path): Report
  {
    match Get(schema, "required")
    case None => Errors([])
    case Some(Arr(items)) => RequiredErrors(items, fields, at)
    case Some(Obj(keys)) => RequiredErrors(KeysOf(keys), fields, at)
    case Some(Str(s)) => RequiredErrors(Characters(s), fields, at)
    case Some(_) => Raised
  }

  function MinItemsReport(schema: seq<Field>, count: nat, at: Path): Report
  {
    match Get(schema, "minItems")
    case None => Errors([])
    case Some(Int(n)) => Errors(if count < n then [TooFewItems(at, n)] else [])
    case Some(Bool(b)) => Errors(if count < (if b then 1 else 0) then [TooFewItems(at, 1)] else [])
    case Some(_) => Raised
  }

  predicate TypeMatches(value: Value, names: seq<string>)
  {
    names == [] || exists i :: 0 <= i < |names| && HasType(value, names[i])
  }

  function ConstReport(value: Value, schema: seq<Field>, at: Path): Report
  {
    match Get(schema, "const")
    case Some(c) => Errors(if Same(value, c) then [] else [ConstMismatch(at, c)])
    case None => Errors([])
  }

  function Validate(value: Value, schema: Value, at: Path): Report
    decreases schema, 2
  {
    if !schema.Obj? then Raised
    else
      match ExpectedNames(schema.fields)
      case None => Raised
      case Some(names) =>
        if !TypeMatches(value, names) then Errors([WrongType(at, names)])
        else Then(ConstReport(value, schema.fields, at), ContentReport(value, schema, at))
  }

  function ContentReport(value: Value, schema: Value, at: Path): Report
    requires schema.Obj?
    decreases schema, 1
  {
    match value
    case Obj(fields) => Then(RequiredReport(schema.fields, fields, at), PropertiesReport(fields, schema, at))
    case Arr(items) => Then(MinItemsReport(schema.fields, |items|, at), ItemsReport(items, schema, at))
    case _ => Errors([])
  }

  function PropertiesReport(fields: seq<Field>, schema: Value, at: Path): Report
    requires schema.Obj?
    decreases schema, 0
  {
    match Get(schema.fields, "properties")
    case None => Errors([])
    case Some(Obj(props)) => PropertyErrors(props, fields, at)
    case Some(_) => Raised
  }

  function ItemsReport(items: seq<Value>, schema: Value, at: Path): Report
    requires schema.Obj?
    decreases schema, 0
  {
    match Get(schema.fields, "items")
    case Some(Obj(inner)) => ItemErrors(items, Obj(inner), at, 0)
    case _ => Errors([])
  }

  function PropertyErrors(props: seq<Field>, fields: seq<Field>, at: Path): Report
    decreases props, 3
  {
    if props == [] then Errors([])
    else
      Then(if Has(fields, props[0].name)
           then Validate(Get(fields, props[0].name).value, props[0].val, at + [Key(props[0].name)]) else Errors([]),
           PropertyErrors(props[1..], fields, at))
  }

  function ItemErrors(items: seq<Value>, schema: Value, at: Path, index: nat): Report
    decreases schema, 3, items
  {
    if items == [] then Errors([])
    else Then(Validate(items[0], schema, at + [Index(index)]), ItemErrors(items[1..], schema, at, index + 1))
  }

  // ---------------------------------------------------------------- premises

  /** No object anywhere inside has an unsupported key. */
  predicate Clean(j: Value)
    decreases j, 1
  {
    match j
    case Obj(fields) => CleanFields(fields)
    case Arr(items) => CleanItems(items)
    case _ => true
  }

  predicate CleanFields(fields: seq<Field>)
    decreases fields, 0
  {
    fields == [] || (fields[0].name !in UNSUPPORTED && Clean(fields[0].val) && CleanFields(fields[1..]))
  }

  predicate CleanItems(items: seq<Value>)
    decreases items, 0
  {
    items == [] || (Clean(items[0]) && CleanItems(items[1..]))
  }

  /** No `const` the validator can reach contains an unsupported key. */
  predicate ConstsClean(schema: Value)
    decreases schema, 1
  {
    schema.Obj? ==>
      var s := schema.fields;
      && (Has(s, "const") ==> Clean(Get(s, "const").value))
      && (Has(s, "properties") && Get(s, "properties").value.Obj? ==>
           PropertyConstsClean(Get(s, "properties").value.fields))
      && (Has(s, "items") ==> ConstsClean(Get(s, "items").value))
  }

  predicate PropertyConstsClean(props: seq<Field>)
    decreases props, 0
  {
    props == [] || (ConstsClean(props[0].val) && PropertyConstsClean(props[1..]))
  }

  /** No property the validator can reach is named by an unsupported keyword. */
  predicate NamesSupported(schema: Value)
    decreases schema, 1
  {
    schema.Obj? ==>
      var s := schema.fields;
      && (Has(s, "required") && Get(s, "required").value.Obj? ==> AllSupported(Get(s, "required").value.fields))
      && (Has(s, "properties") && Get(s, "properties").value.Obj? ==>
           PropertyNamesSupported(Get(s, "properties").value.fields))
      && (Has(s, "items") ==> NamesSupported(Get(s, "items").value))
  }

  predicate AllSupported(fields: seq<Field>)
  {
    forall i :: 0 <= i < |fields| ==> fields[i].name !in UNSUPPORTED
  }

  predicate PropertyNamesSupported(props: seq<Field>)
    decreases props, 0
  {
    props == [] || (props[0].name !in UNSUPPORTED && NamesSupported(props[0].val) && PropertyNamesSupported(props[1..]))
  }

  // ---------------------------------------------------------------- the projection, field by field

  lemma {:induction false} CleanMeansUnchanged(j: Value)
    ensures Clean(j) <==> Compatible(j) == j
    decreases j, 1
  {
    match j {
      case Obj(fields) => CleanFieldsUnchanged(fields);
      case Arr(items) => CleanItemsUnchanged(items);
      case _ =>
    }
  }

  lemma {:induction false} CleanFieldsUnchanged(fields: seq<Field>)
    ensures |CompatibleFields(fields)| <= |fields|
    ensures CleanFields(fields) <==> CompatibleFields(fields) == fields
    decreases fields, 0
  {
    if fields != [] {
      var rest := CompatibleFields(fields[1..]);
      CleanMeansUnchanged(fields[0].val);
      CleanFieldsUnchanged(fields[1..]);
      assert fields == [fields[0]] + fields[1..];
      if fields[0].name !in UNSUPPORTED {
        var head := Field(fields[0].name, Compatible(fields[0].val));
        assert CompatibleFields(fields)[0] == head && CompatibleFields(fields)[1..] == rest;
      }
    }
  }

  lemma {:induction false} CleanItemsUnchanged(items: seq<Value>)
    ensures CleanItems(items) <==> CompatibleItems(items) == items
    decreases items, 0
  {
    if items != [] {
      CleanMeansUnchanged(items[0]);
      CleanItemsUnchanged(items[1..]);
      assert items == [items[0]] + items[1..];
      assert CompatibleItems(items)[0] == Compatible(items[0]) &&
        CompatibleItems(items)[1..] == CompatibleItems(items[1..]);
    }
  }

  /** Exactly five keywords are dropped, at every level. */
  lemma {:induction false} CompatibleIsClean(j: Value)
    ensures Clean(Compatible(j))
    ensures forall key :: key in UNSUPPORTED <==>
      key == "uniqueItems" || key == "allOf" || key == "if" || key == "then" || key == "else"
    decreases j, 1
  {
    match j {
      case Obj(fields) => CompatibleFieldsClean(fields);
      case Arr(items) => CompatibleItemsClean(items);
      case _ =>
    }
  }

  lemma {:induction false} CompatibleFieldsClean(fields: seq<Field>)
    ensures CleanFields(CompatibleFields(fields))
    decreases fields, 0
  {
    if fields != [] {
      CompatibleFieldsClean(fields[1..]);
      if fields[0].name !in UNSUPPORTED {
        CompatibleIsClean(fields[0].val);
        assert CompatibleFields(fields)[1..] == CompatibleFields(fields[1..]);
      } else {
        assert CompatibleFields(fields) == CompatibleFields(fields[1..]);
      }
    }
  }

  lemma {:induction false} CompatibleItemsClean(items: seq<Value>)
    ensures |CompatibleItems(items)| == |items| && CleanItems(CompatibleItems(items))
    ensures forall i :: 0 <= i < |items| ==> CompatibleItems(items)[i] == Compatible(items[i])
    decreases items, 0
  {
    if items != [] {
      CompatibleIsClean(items[0]);
      CompatibleItemsClean(items[1..]);
      assert CompatibleItems(items)[1..] == CompatibleItems(items[1..]);
    }
  }

  lemma {:induction false} GetCompatible(fields: seq<Field>, key: string)
    requires key !in UNSUPPORTED
    ensures Get(CompatibleFields(fields), key) ==
      match Get(fields, key) case None => None case Some(v) => Some(Compatible(v))
  {
    if fields != [] {
      GetCompatible(fields[1..], key);
      if fields[0].name !in UNSUPPORTED {
        assert CompatibleFields(fields)[1..] == CompatibleFields(fields[1..]);
      } else {
        assert CompatibleFields(fields) == CompatibleFields(fields[1..]);
      }
    }
  }

  lemma {:induction false} KnownNamesCompatible(names: seq<Value>)
    ensures KnownNames(CompatibleItems(names)) == KnownNames(names)
  {
    if names != [] {
      KnownNamesCompatible(names[1..]);
      assert CompatibleItems(names)[1..] == CompatibleItems(names[1..]);
    }
  }

  lemma {:induction false} RequiredCompatible(keys: seq<Value>, fields: seq<Field>, at: Path)
    ensures RequiredErrors(CompatibleItems(keys), fields, at) == RequiredErrors(keys, fields, at)
  {
    if keys != [] {
      RequiredCompatible(keys[1..], fields, at);
      assert CompatibleItems(keys)[1..] == CompatibleItems(keys[1..]);
    }
  }

  lemma {:induction false} RequiredKeysFewer(keys: seq<Field>, fields: seq<Field>, at: Path)
    ensures RequiredErrors(KeysOf(keys), fields, at) == Errors([]) ==>
      RequiredErrors(KeysOf(CompatibleFields(keys)), fields, at) == Errors([])
    ensures AllSupported(keys) ==> KeysOf(CompatibleFields(keys)) == KeysOf(keys)
  {
    if keys != [] {
      RequiredKeysFewer(keys[1..], fields, at);
      assert KeysOf(keys)[1..] == KeysOf(keys[1..]);
      if keys[0].name !in UNSUPPORTED {
        assert CompatibleFields(keys)[1..] == CompatibleFields(keys[1..]);
        assert KeysOf(CompatibleFields(keys))[1..] == KeysOf(CompatibleFields(keys[1..]));
      } else {
        assert CompatibleFields(keys) == CompatibleFields(keys[1..]);
      }
    }
  }

  lemma RequiredReportCompatible(s: seq<Field>, fields: seq<Field>, at: Path)
    ensures RequiredReport(s, fields, at) == Errors([]) ==>
      RequiredReport(CompatibleFields(s), fields, at) == Errors([])
    ensures (Has(s, "required") && Get(s, "required").value.Obj? ==> AllSupported(Get(s, "required").value.fields)) ==>
      RequiredReport(CompatibleFields(s), fields, at) == RequiredReport(s, fields, at)
  {
    GetCompatible(s, "required");
    match Get(s, "required") {
      case Some(Arr(items)) => RequiredCompatible(items, fields, at);
      case Some(Obj(keys)) => RequiredKeysFewer(keys, fields, at);
      case _ =>
    }
  }

  // ---------------------------------------------------------------- the two theorems

  lemma TypeCompatible(s: seq<Field>)
    ensures ExpectedNames(CompatibleFields(s)) == ExpectedNames(s)
  {
    GetCompatible(s, "type");
    if Has(s, "type") && Get(s, "type").value.Arr? { KnownNamesCompatible(Get(s, "type").value.items); }
  }

  lemma ConstCompatible(value: Value, s: seq<Field>, at: Path)
    requires Has(s, "const") ==> Clean(Get(s, "const").value)
    ensures ConstReport(value, CompatibleFields(s), at) == ConstReport(value, s, at)
  {
    GetCompatible(s, "const");
    if Has(s, "const") { CleanMeansUnchanged(Get(s, "const").value); }
  }

  // ---------------------------------------------------------------- consts with a dropped key

  /** Validating the value compares it, outside dropped properties, with a const that has a dropped key. */
  predicate MeetsDirtyConst(value: Value, schema: Value)
    decreases schema, 2
  {
    schema.Obj? && (ConstIsDirty(schema.fields) || ContentMeetsDirtyConst(value, schema))
  }

  predicate ConstIsDirty(s: seq<Field>) { Has(s, "const") && !Clean(Get(s, "const").value) }

  predicate ContentMeetsDirtyConst(value: Value, schema: Value)
    requires schema.Obj?
    decreases schema, 1
  {
    var s := schema.fields;
    match value
    case Obj(fields) =>
      Has(s, "properties") && Get(s, "properties").value.Obj? &&
        PropertyMeetsDirtyConst(Get(s, "properties").value.fields, fields)
    case Arr(items) => Has(s, "items") && ItemMeetsDirtyConst(items, Get(s, "items").value)
    case _ => false
  }

  predicate PropertyMeetsDirtyConst(props: seq<Field>, fields: seq<Field>)
    decreases props, 3
  {
    props != [] &&
    ((props[0].name !in UNSUPPORTED && Has(fields, props[0].name) &&
     MeetsDirtyConst(Get(fields, props[0].name).value, props[0].val))
     || PropertyMeetsDirtyConst(props[1..], fields))
  }

  predicate ItemMeetsDirtyConst(items: seq<Value>, schema: Value)
    decreases schema, 3, items
  {
    items != [] && (MeetsDirtyConst(items[0], schema) || ItemMeetsDirtyConst(items[1..], schema))
  }

  ghost function Names(fields: seq<Field>): set<string> { set i | 0 <= i < |fields| :: fields[i].name }

  lemma {:induction false} NamesSize(fields: seq<Field>)
    requires UniqueNames(fields)
    ensures |Names(fields)| == |fields|
  {
    if fields != [] {
      var front, last := fields[..|fields| - 1], fields[|fields| - 1];
      NamesSize(front);
      assert Names(fields) == Names(front) + {last.name};
    }
  }

  lemma {:induction false} GetIsField(fields: seq<Field>, i: nat)
    requires UniqueNames(fields) && i < |fields|
    ensures Get(fields, fields[i].name) == Some(fields[i].val)
  {
    if i > 0 { GetIsField(fields[1..], i - 1); }
  }

  lemma {:induction false} HasName(fields: seq<Field>, name: string)
    ensures Has(fields, name) <==> name in Names(fields)
  {
    if fields != [] {
      HasName(fields[1..], name);
      assert Names(fields) == {fields[0].name} + Names(fields[1..]) by {
        forall n | n in Names(fields) ensures n in {fields[0].name} + Names(fields[1..]) {
          var i :| 0 <= i < |fields| && fields[i].name == n;
          if i > 0 { assert fields[1..][i - 1].name == n; }
        }
        forall n | n in Names(fields[1..]) ensures n in Names(fields) {
          var i :| 0 <= i < |fields[1..]| && fields[1..][i].name == n;
          assert fields[i + 1].name == n;
        }
      }
    }
  }

  lemma {:induction false} SameFieldsAt(x: seq<Field>, y: seq<Field>, i: nat)
    requires SameFields(x, y) && i < |x|
    ensures Has(y, x[i].name) && Same(x[i].val, Get(y, x[i].name).value)
  {
    if i > 0 { SameFieldsAt(x[1..], y, i - 1); }
  }

  lemma {:induction false} SubsetOfSameSize(a: set<string>, b: set<string>)
    requires a <= b && |a| == |b|
    ensures a == b
    decreases a
  {
    if a != {} {
      var x :| x in a;
      SubsetOfSameSize(a - {x}, b - {x});
      assert a == (a - {x}) + {x} && b == (b - {x}) + {x};
    }
  }

  /** Equal objects have a field of each name, with equal values. */
  lemma FieldOnBothSides(x: seq<Field>, y: seq<Field>, j: nat) returns (i: nat)
    requires UniqueNames(x) && UniqueNames(y) && |x| == |y| && SameFields(x, y) && j < |y|
    ensures i < |x| && x[i].name == y[j].name && Same(x[i].val, y[j].val)
  {
    forall n | n in Names(x) ensures n in Names(y) {
      var k :| 0 <= k < |x| && x[k].name == n;
      SameFieldsAt(x, y, k);
      HasName(y, n);
    }
    NamesSize(x);
    NamesSize(y);
    SubsetOfSameSize(Names(x), Names(y));
    assert y[j].name in Names(x);
    i :| 0 <= i < |x| && x[i].name == y[j].name;
    SameFieldsAt(x, y, i);
    GetIsField(y, j);
  }

  lemma {:induction false} FewerFields(fields: seq<Field>, i: nat)
    requires i < |fields| && fields[i].name in UNSUPPORTED
    ensures |CompatibleFields(fields)| < |fields|
  {
    CleanFieldsUnchanged(fields[1..]);
    if i > 0 { FewerFields(fields[1..], i - 1); }
  }

  lemma {:induction false} DirtyField(fields: seq<Field>) returns (i: nat)
    requires !CleanFields(fields)
    ensures i < |fields| && (fields[i].name in UNSUPPORTED || !Clean(fields[i].val))
  {
    if fields[0].name in UNSUPPORTED || !Clean(fields[0].val) {
      i := 0;
    } else {
      i := DirtyField(fields[1..]);
      i := i + 1;
    }
  }

  /** What equals a const with a dropped key does not equal the projected const. */
  lemma {:induction false} ProjectedConstDiffers(v: Value, c: Value)
    requires UniqueKeys(v) && UniqueKeys(c) && Same(v, c) && !Clean(c)
    ensures !Same(v, Compatible(c))
    decreases c, 1
  {
    match c {
      case Obj(y) =>
        var x := v.fields;
        var j := DirtyField(y);
        if y[j].name in UNSUPPORTED {
          FewerFields(y, j);
        } else {
          var i := FieldOnBothSides(x, y, j);
          ProjectedConstDiffers(x[i].val, y[j].val);
          GetCompatible(y, y[j].name);
          GetIsField(y, j);
          if SameFields(x, CompatibleFields(y)) { SameFieldsAt(x, CompatibleFields(y), i); }
        }
      case Arr(y) => ProjectedItemsDiffer(v.items, y);
      case _ =>
    }
  }

  lemma {:induction false} ProjectedItemsDiffer(x: seq<Value>, y: seq<Value>)
    requires |x| == |y| && SameItems(x, y) && !CleanItems(y)
    requires forall i :: 0 <= i < |x| ==> UniqueKeys(x[i]) && UniqueKeys(y[i])
    ensures |CompatibleItems(y)| == |x| ==> !SameItems(x, CompatibleItems(y))
    decreases y, 0
  {
    assert CompatibleItems(y)[0] == Compatible(y[0]) && CompatibleItems(y)[1..] == CompatibleItems(y[1..]);
    if !Clean(y[0]) { ProjectedConstDiffers(x[0], y[0]); } else { ProjectedItemsDiffer(x[1..], y[1..]); }
  }

  lemma {:induction false} GetUnique(fields: seq<Field>, key: string)
    requires forall i :: 0 <= i < |fields| ==> UniqueKeys(fields[i].val)
    ensures Has(fields, key) ==> UniqueKeys(Get(fields, key).value)
  {
    if fields != [] && fields[0].name != key {
      assert forall i :: 0 <= i < |fields[1..]| ==> fields[1..][i] == fields[i + 1];
      GetUnique(fields[1..], key);
    }
  }

  /** An accepted value is accepted by the projection exactly when it meets no const with a dropped key. */
  lemma {:induction false} ProjectionAcceptsExactly(value: Value, schema: Value, at: Path)
    requires UniqueKeys(value) && UniqueKeys(schema)
    requires Validate(value, schema, at) == Errors([])
    ensures Validate(value, Compatible(schema), at) == Errors([]) <==> !MeetsDirtyConst(value, schema)
    decreases schema, 2
  {
    TypeCompatible(schema.fields);
    ConstAcceptedExactly(value, schema.fields, at);
    ContentAcceptedExactly(value, schema, at);
  }

  lemma {:induction false} ContentAcceptedExactly(value: Value, schema: Value, at: Path)
    requires UniqueKeys(value) && UniqueKeys(schema) && schema.Obj?
    requires ContentReport(value, schema, at) == Errors([])
    ensures Compatible(schema).Obj? &&
      (ContentReport(value, Compatible(schema), at) == Errors([]) <==> !ContentMeetsDirtyConst(value, schema))
    decreases schema, 1
  {
    match value {
      case Obj(fields) =>
        RequiredReportCompatible(schema.fields, fields, at);
        PropertiesReportExactly(fields, schema, at);
      case Arr(items) =>
        GetCompatible(schema.fields, "minItems");
        ItemsReportExactly(items, schema, at);
      case _ =>
    }
  }

  lemma ConstAcceptedExactly(value: Value, s: seq<Field>, at: Path)
    requires UniqueKeys(value) && UniqueKeys(Obj(s)) && ConstReport(value, s, at) == Errors([])
    ensures ConstReport(value, CompatibleFields(s), at) == Errors([]) <==> !ConstIsDirty(s)
  {
    GetCompatible(s, "const");
    if Has(s, "const") {
      GetUnique(s, "const");
      CleanMeansUnchanged(Get(s, "const").value);
      if !Clean(Get(s, "const").value) { ProjectedConstDiffers(value, Get(s, "const").value); }
    }
  }

  lemma {:induction false} PropertiesReportExactly(fields: seq<Field>, schema: Value, at: Path)
    requires schema.Obj? && UniqueKeys(schema) && UniqueKeys(Obj(fields))
    requires PropertiesReport(fields, schema, at) == Errors([])
    ensures PropertiesReport(fields, Compatible(schema), at) == Errors([]) <==>
      !(Has(schema.fields, "properties") &&
        PropertyMeetsDirtyConst(Get(schema.fields, "properties").value.fields, fields))
    decreases schema, 0
  {
    GetCompatible(schema.fields, "properties");
    if Has(schema.fields, "properties") {
      GetUnique(schema.fields, "properties");
      PropertiesExactly(Get(schema.fields, "properties").value.fields, fields, at);
    }
  }

  lemma {:induction false} ItemsReportExactly(items: seq<Value>, schema: Value, at: Path)
    requires schema.Obj? && UniqueKeys(schema) && forall i :: 0 <= i < |items| ==> UniqueKeys(items[i])
    requires ItemsReport(items, schema, at) == Errors([])
    ensures ItemsReport(items, Compatible(schema), at) == Errors([]) <==>
      !(Has(schema.fields, "items") && ItemMeetsDirtyConst(items, Get(schema.fields, "items").value))
    decreases schema, 0
  {
    GetCompatible(schema.fields, "items");
    if Has(schema.fields, "items") {
      var inner := Get(schema.fields, "items").value;
      GetUnique(schema.fields, "items");
      if inner.Obj? { ItemsExactly(items, inner, at, 0); } else { NothingToMeet(items, inner); }
    }
  }

  lemma {:induction false} NothingToMeet(items: seq<Value>, schema: Value)
    requires !schema.Obj?
    ensures !ItemMeetsDirtyConst(items, schema)
  {
    if items != [] { NothingToMeet(items[1..], schema); }
  }

  lemma {:induction false} PropertiesExactly(props: seq<Field>, fields: seq<Field>, at: Path)
    requires (forall i :: 0 <= i < |props| ==> UniqueKeys(props[i].val)) && UniqueKeys(Obj(fields))
    requires PropertyErrors(props, fields, at) == Errors([])
    ensures PropertyErrors(CompatibleFields(props), fields, at) == Errors([]) <==>
      !PropertyMeetsDirtyConst(props, fields)
    decreases props, 3
  {
    if props != [] {
      assert forall i :: 0 <= i < |props[1..]| ==> props[1..][i] == props[i + 1];
      PropertiesExactly(props[1..], fields, at);
      if props[0].name in UNSUPPORTED {
        assert CompatibleFields(props) == CompatibleFields(props[1..]);
      } else {
        assert CompatibleFields(props)[1..] == CompatibleFields(props[1..]);
        if Has(fields, props[0].name) {
          GetUnique(fields, props[0].name);
          ProjectionAcceptsExactly(Get(fields, props[0].name).value, props[0].val, at + [Key(props[0].name)]);
        }
      }
    }
  }

  lemma {:induction false} ItemsExactly(items: seq<Value>, schema: Value, at: Path, index: nat)
    requires UniqueKeys(schema) && forall i :: 0 <= i < |items| ==> UniqueKeys(items[i])
    requires ItemErrors(items, schema, at, index) == Errors([])
    ensures ItemErrors(items, Compatible(schema), at, index) == Errors([]) <==> !ItemMeetsDirtyConst(items, schema)
    decreases schema, 3, items
  {
    if items != [] {
      ProjectionAcceptsExactly(items[0], schema, at + [Index(index)]);
      ItemsExactly(items[1..], schema, at, index + 1);
    }
  }

  ghost predicate Accepts(schema: Value, value: Value)
  {
    UniqueKeys(value) && Validate(value, schema, []) == Errors([])
  }

  /** The projection is never stricter exactly when no accepted value meets a const with a dropped key. */
  lemma ProjectionNeverStricter(schema: Value)
    requires UniqueKeys(schema)
    ensures (forall value | Accepts(schema, value) :: Accepts(Compatible(schema), value)) <==>
      (forall value | Accepts(schema, value) :: !MeetsDirtyConst(value, schema))
  {
    forall value | Accepts(schema, value)
      ensures Accepts(Compatible(schema), value) <==> !MeetsDirtyConst(value, schema)
    {
      ProjectionAcceptsExactly(value, schema, []);
    }
  }

  /** A schema without such consts anywhere in reach needs no look at the values. */
  lemma {:induction false} CleanConstsAreNeverMet(value: Value, schema: Value)
    requires ConstsClean(schema)
    ensures !MeetsDirtyConst(value, schema)
    decreases schema, 2
  {
    if schema.Obj? {
      var s := schema.fields;
      if value.Obj? && Has(s, "properties") && Get(s, "properties").value.Obj? {
        CleanPropertiesAreNeverMet(Get(s, "properties").value.fields, value.fields);
      }
      if value.Arr? && Has(s, "items") { CleanItemsAreNeverMet(value.items, Get(s, "items").value); }
    }
  }

  lemma {:induction false} CleanPropertiesAreNeverMet(props: seq<Field>, fields: seq<Field>)
    requires PropertyConstsClean(props)
    ensures !PropertyMeetsDirtyConst(props, fields)
    decreases props, 3
  {
    if props != [] {
      if Has(fields, props[0].name) { CleanConstsAreNeverMet(Get(fields, props[0].name).value, props[0].val); }
      CleanPropertiesAreNeverMet(props[1..], fields);
    }
  }

  lemma {:induction false} CleanItemsAreNeverMet(items: seq<Value>, schema: Value)
    requires ConstsClean(schema)
    ensures !ItemMeetsDirtyConst(items, schema)
    decreases schema, 3, items
  {
    if items != [] {
      CleanConstsAreNeverMet(items[0], schema);
      CleanItemsAreNeverMet(items[1..], schema);
    }
  }

  /** When no property is named by a dropped keyword either, the error lists are identical. */
  lemma {:induction false} ProjectionSameErrors(value: Value, schema: Value, at: Path)
    requires ConstsClean(schema) && NamesSupported(schema)
    ensures Validate(value, Compatible(schema), at) == Validate(value, schema, at)
    decreases schema, 2
  {
    if schema.Obj? {
      TypeCompatible(schema.fields);
      ConstCompatible(value, schema.fields, at);
      ContentSameErrors(value, schema, at);
    }
  }

  lemma {:induction false} ContentSameErrors(value: Value, schema: Value, at: Path)
    requires schema.Obj? && ConstsClean(schema) && NamesSupported(schema)
    ensures Compatible(schema).Obj? && ContentReport(value, Compatible(schema), at) == ContentReport(value, schema, at)
    decreases schema, 1
  {
    match value {
      case Obj(fields) =>
        RequiredReportCompatible(schema.fields, fields, at);
        PropertiesReportSame(fields, schema, at);
      case Arr(items) =>
        GetCompatible(schema.fields, "minItems");
        ItemsReportSame(items, schema, at);
      case _ =>
    }
  }

  lemma {:induction false} PropertiesReportSame(fields: seq<Field>, schema: Value, at: Path)
    requires schema.Obj? && ConstsClean(schema) && NamesSupported(schema)
    ensures PropertiesReport(fields, Compatible(schema), at) == PropertiesReport(fields, schema, at)
    decreases schema, 0
  {
    GetCompatible(schema.fields, "properties");
    if Has(schema.fields, "properties") && Get(schema.fields, "properties").value.Obj? {
      PropertiesSameErrors(Get(schema.fields, "properties").value.fields, fields, at);
    }
  }

  lemma {:induction false} ItemsReportSame(items: seq<Value>, schema: Value, at: Path)
    requires schema.Obj? && ConstsClean(schema) && NamesSupported(schema)
    ensures ItemsReport(items, Compatible(schema), at) == ItemsReport(items, schema, at)
    decreases schema, 0
  {
    GetCompatible(schema.fields, "items");
    if Has(schema.fields, "items") && Get(schema.fields, "items").value.Obj? {
      ItemsSameErrors(items, Get(schema.fields, "items").value, at, 0);
    }
  }

  lemma {:induction false} PropertiesSameErrors(props: seq<Field>, fields: seq<Field>, at: Path)
    requires PropertyConstsClean(props) && PropertyNamesSupported(props)
    ensures PropertyErrors(CompatibleFields(props), fields, at) == PropertyErrors(props, fields, at)
    decreases props, 3
  {
    if props != [] {
      PropertiesSameErrors(props[1..], fields, at);
      assert CompatibleFields(props)[1..] == CompatibleFields(props[1..]);
      if Has(fields, props[0].name) {
        ProjectionSameErrors(Get(fields, props[0].name).value, props[0].val, at + [Key(props[0].name)]);
      }
    }
  }

  lemma {:induction false} ItemsSameErrors(items: seq<Value>, schema: Value, at: Path, index: nat)
    requires ConstsClean(schema) && NamesSupported(schema)
    ensures ItemErrors(items, Compatible(schema), at, index) == ItemErrors(items, schema, at, index)
    decreases schema, 3, items
  {
    if items != [] {
      ProjectionSameErrors(items[0], schema, at + [Index(index)]);
      ItemsSameErrors(items[1..], schema, at, index + 1);
    }
  }

  /** A `const` with a dropped key makes the projection stricter: it then rejects the const itself. */
  lemma DirtyConstIsStricter()
    ensures var schema := Obj([Field("const", Obj([Field("if", Null)]))]);
      && Validate(Obj([Field("if", Null)]), schema, []) == Errors([])
      && Validate(Obj([Field("if", Null)]), Compatible(schema), []) != Errors([])
  {
    var inner := [Field("if", Null)];
    var fields := [Field("const", Obj(inner))];
    assert CompatibleFields(inner) == [];
    assert CompatibleFields(fields) == [Field("const", Obj([]))];
    assert Get(fields, "const") == Some(Obj(inner));
    assert Get(inner, "if") == Some(Null);
    assert SameFields(inner, inner);
    assert Same(Obj(inner), Obj(inner)) && !Same(Obj(inner), Obj([]));
  }
}
