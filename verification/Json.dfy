/** JSON documents whose objects keep their key order, as a loaded Python dict does. */
module Json {
  import opened Basics

  datatype Field = Field(name: string, val: Value)

  datatype Value =
    | Null
    | Bool(b: bool)
    | Int(n: int)
    | Str(s: string)
    | Arr(items: seq<Value>)
    | Obj(fields: seq<Field>)

  function Get(fields: seq<Field>, key: string): (r: Option<Value>)
    ensures r.Some? ==> (fields decreases to r.value)
  {
    if fields == [] then None
    else if fields[0].name == key then Some(fields[0].val)
    else Get(fields[1..], key)
  }

  predicate Has(fields: seq<Field>, key: string) { Get(fields, key).Some? }

  /** Python equality: object keys are compared without their order. */
  predicate Same(a: Value, b: Value)
    decreases a, 1
  {
    match (a, b)
    case (Arr(x), Arr(y)) => |x| == |y| && SameItems(x, y)
    case (Obj(x), Obj(y)) => |x| == |y| && SameFields(x, y)
    case _ => a == b
  }

  predicate SameItems(x: seq<Value>, y: seq<Value>)
    requires |x| == |y|
    decreases x, 0
  {
    x == [] || (Same(x[0], y[0]) && SameItems(x[1..], y[1..]))
  }

  predicate SameFields(x: seq<Field>, y: seq<Field>)
    decreases x, 0
  {
    x == [] || (Has(y, x[0].name) && Same(x[0].val, Get(y, x[0].name).value) && SameFields(x[1..], y))
  }

  ghost predicate UniqueNames(fields: seq<Field>)
  {
    forall i, j :: 0 <= i < j < |fields| ==> fields[i].name != fields[j].name
  }

  /** No object inside repeats a key: the documents a dict can hold. */
  ghost predicate UniqueKeys(v: Value)
  {
    match v
    case Arr(items) => forall i :: 0 <= i < |items| ==> UniqueKeys(items[i])
    case Obj(fields) => UniqueNames(fields) && forall i :: 0 <= i < |fields| ==> UniqueKeys(fields[i].val)
    case _ => true
  }
}
