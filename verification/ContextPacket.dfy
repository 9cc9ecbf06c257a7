/** Bounded context packets: recursive bounding, canonical JSON, and the self-describing size field. */
module ContextPacket {
  import opened Basics
  import opened Json
  import Ordering
  import opened Utf8

  datatype Limits = Limits(
    maxBytes: int, maxFields: int, stringBytes: int, listItems: int, mapItems: int, maxDepth: int)

  // ---------------------------------------------------------------- bounding

  /** Python's `s[:n]`: a negative n drops elements from the end. */
  function Take<T>(s: seq<T>, n: int): seq<T>
  {
    if n >= 0 then s[..Min(n, |s|)] else s[..Max(0, |s| + n)]
  }

  /** None stands for the depth error. */
  function Bounded(v: Value, depth: int, lim: Limits): Option<Value>
    decreases if depth < 0 then 0 else depth + 1, 0
  {
    if depth < 0 then None
    else match v
      case Str(s) => Some(Str(Truncate(s, lim.stringBytes)))
      case Arr(items) =>
        (match BoundedItems(Take(items, lim.listItems), depth, lim)
         case Some(bounded) => Some(Arr(bounded))
         case None => None)
      case Obj(fields) =>
        (match BoundedFields(Take(fields, lim.mapItems), depth, lim)
         case Some(bounded) => Some(Obj(bounded))
         case None => None)
      case _ => Some(v)
  }

  /** The children of a node at `depth`, each bounded one level down. */
  function BoundedItems(items: seq<Value>, depth: nat, lim: Limits): (r: Option<seq<Value>>)
    ensures r.Some? ==> |r.value| == |items|
    decreases depth, 1, |items|
  {
    if items == [] then Some([])
    else match (Bounded(items[0], depth - 1, lim), BoundedItems(items[1..], depth, lim))
      case (Some(first), Some(rest)) => Some([first] + rest)
      case _ => None
  }

  function BoundedFields(fields: seq<Field>, depth: nat, lim: Limits): (r: Option<seq<Field>>)
    ensures r.Some? ==> |r.value| == |fields|
    decreases depth, 1, |fields|
  {
    if fields == [] then Some([])
    else match (Bounded(fields[0].val, depth - 1, lim), BoundedFields(fields[1..], depth, lim))
      case (Some(first), Some(rest)) => Some([Field(fields[0].name, first)] + rest)
      case _ => None
  }

  /** What "within the limits" means, without computing a bounded copy. */
  predicate Within(v: Value, depth: int, lim: Limits)
    decreases if depth < 0 then 0 else depth + 1
  {
    && depth >= 0
    && match v
       case Str(s) => Short(s, lim.stringBytes)
       case Arr(items) =>
         |items| <= Max(0, lim.listItems) && forall i :: 0 <= i < |items| ==> Within(items[i], depth - 1, lim)
       case Obj(fields) =>
         |fields| <= Max(0, lim.mapItems) && forall i :: 0 <= i < |fields| ==> Within(fields[i].val, depth - 1, lim)
       case _ => true
  }

  predicate NonnegativeCounts(lim: Limits) { lim.listItems >= 0 && lim.mapItems >= 0 }

  /** The values within the limits are exactly the ones bounding leaves alone. */
  lemma {:induction false} WithinIsFixed(v: Value, depth: int, lim: Limits)
    requires NonnegativeCounts(lim)
    ensures Within(v, depth, lim) <==> Bounded(v, depth, lim) == Some(v)
    decreases if depth < 0 then 0 else depth + 1, 0
  {
    if depth >= 0 {
      match v {
        case Str(s) => TruncateFixedPoints(s, lim.stringBytes);
        case Arr(items) =>
          if |items| <= lim.listItems {
            assert Take(items, lim.listItems) == items;
            ItemsFixed(items, depth, lim);
          }
        case Obj(fields) =>
          if |fields| <= lim.mapItems {
            assert Take(fields, lim.mapItems) == fields;
            FieldsFixed(fields, depth, lim);
          }
        case _ =>
      }
    }
  }

  lemma {:induction false} ItemsFixed(items: seq<Value>, depth: nat, lim: Limits)
    requires NonnegativeCounts(lim)
    ensures (forall i :: 0 <= i < |items| ==> Within(items[i], depth - 1, lim)) <==>
      BoundedItems(items, depth, lim) == Some(items)
    decreases depth, 1, |items|
  {
    if items != [] {
      WithinIsFixed(items[0], depth - 1, lim);
      ItemsFixed(items[1..], depth, lim);
      assert items == [items[0]] + items[1..];
      assert forall i :: 1 <= i < |items| ==> items[i] == items[1..][i - 1];
      if BoundedItems(items, depth, lim) == Some(items) {
        assert BoundedItems(items, depth, lim).value[1..] == items[1..];
      }
    }
  }

  lemma {:induction false} FieldsFixed(fields: seq<Field>, depth: nat, lim: Limits)
    requires NonnegativeCounts(lim)
    ensures (forall i :: 0 <= i < |fields| ==> Within(fields[i].val, depth - 1, lim)) <==>
      BoundedFields(fields, depth, lim) == Some(fields)
    decreases depth, 1, |fields|
  {
    if fields != [] {
      WithinIsFixed(fields[0].val, depth - 1, lim);
      FieldsFixed(fields[1..], depth, lim);
      assert fields == [fields[0]] + fields[1..];
      assert forall i :: 1 <= i < |fields| ==> fields[i] == fields[1..][i - 1];
      if BoundedFields(fields, depth, lim) == Some(fields) {
        assert BoundedFields(fields, depth, lim).value[1..] == fields[1..];
      }
    }
  }

  /** Bounding ends within the limits. */
  lemma {:induction false} BoundedIsWithin(v: Value, depth: int, lim: Limits)
    requires NonnegativeCounts(lim) && Bounded(v, depth, lim).Some?
    ensures Within(Bounded(v, depth, lim).value, depth, lim)
    decreases if depth < 0 then 0 else depth + 1, 0
  {
    match v {
      case Str(s) => TruncateFixedPoints(s, lim.stringBytes);
      case Arr(items) => ItemsWithin(Take(items, lim.listItems), depth, lim);
      case Obj(fields) => FieldsWithin(Take(fields, lim.mapItems), depth, lim);
      case _ =>
    }
  }

  lemma {:induction false} ItemsWithin(items: seq<Value>, depth: nat, lim: Limits)
    requires NonnegativeCounts(lim) && BoundedItems(items, depth, lim).Some?
    ensures forall i :: 0 <= i < |items| ==> Within(BoundedItems(items, depth, lim).value[i], depth - 1, lim)
    decreases depth, 1, |items|
  {
    if items != [] {
      BoundedIsWithin(items[0], depth - 1, lim);
      ItemsWithin(items[1..], depth, lim);
    }
  }

  lemma {:induction false} FieldsWithin(fields: seq<Field>, depth: nat, lim: Limits)
    requires NonnegativeCounts(lim) && BoundedFields(fields, depth, lim).Some?
    ensures forall i :: 0 <= i < |fields| ==> Within(BoundedFields(fields, depth, lim).value[i].val, depth - 1, lim)
    decreases depth, 1, |fields|
  {
    if fields != [] {
      BoundedIsWithin(fields[0].val, depth - 1, lim);
      FieldsWithin(fields[1..], depth, lim);
    }
  }

  // ---------------------------------------------------------------- which children are kept

  lemma {:induction false} ItemsOneByOne(items: seq<Value>, depth: nat, lim: Limits)
    ensures BoundedItems(items, depth, lim).Some? <==>
      forall i :: 0 <= i < |items| ==> Bounded(items[i], depth - 1, lim).Some?
    ensures BoundedItems(items, depth, lim).Some? ==>
      forall i :: 0 <= i < |items| ==>
        Bounded(items[i], depth - 1, lim) == Some(BoundedItems(items, depth, lim).value[i])
  {
    if items != [] {
      ItemsOneByOne(items[1..], depth, lim);
      assert forall i :: 1 <= i < |items| ==> items[i] == items[1..][i - 1];
      if BoundedItems(items[1..], depth, lim).Some? && Bounded(items[0], depth - 1, lim).Some? {
        assert BoundedItems(items, depth, lim).value[1..] == BoundedItems(items[1..], depth, lim).value;
      }
    }
  }

  lemma {:induction false} FieldsOneByOne(fields: seq<Field>, depth: nat, lim: Limits)
    ensures BoundedFields(fields, depth, lim).Some? <==>
      forall i :: 0 <= i < |fields| ==> Bounded(fields[i].val, depth - 1, lim).Some?
    ensures BoundedFields(fields, depth, lim).Some? ==>
      forall i :: 0 <= i < |fields| ==>
        && BoundedFields(fields, depth, lim).value[i].name == fields[i].name
        && Bounded(fields[i].val, depth - 1, lim) == Some(BoundedFields(fields, depth, lim).value[i].val)
  {
    if fields != [] {
      FieldsOneByOne(fields[1..], depth, lim);
      assert forall i :: 1 <= i < |fields| ==> fields[i] == fields[1..][i - 1];
      if BoundedFields(fields[1..], depth, lim).Some? && Bounded(fields[0].val, depth - 1, lim).Some? {
        assert BoundedFields(fields, depth, lim).value[1..] == BoundedFields(fields[1..], depth, lim).value;
      }
    }
  }

  /**
    A bounded list keeps its first items, `listItems` of them or, for a negative count, all but that many, each bounded
    in its place; it fails exactly when one of those does.
   */
  lemma FirstItemsAreKept(items: seq<Value>, depth: int, lim: Limits, count: nat)
    requires count == if lim.listItems >= 0 then Min(lim.listItems, |items|) else Max(0, |items| + lim.listItems)
    ensures var r := Bounded(Arr(items), depth, lim);
      && (r.None? <==> depth < 0 || exists i :: 0 <= i < count && Bounded(items[i], depth - 1, lim).None?)
      && (r.Some? ==>
           && r.value.Arr? && |r.value.items| == count
           && forall i :: 0 <= i < count ==> Bounded(items[i], depth - 1, lim) == Some(r.value.items[i]))
  {
    if depth >= 0 { ItemsOneByOne(Take(items, lim.listItems), depth, lim); }
  }

  /** The same for the fields of an object, which keep their names and their order. */
  lemma FirstFieldsAreKept(fields: seq<Field>, depth: int, lim: Limits, count: nat)
    requires count == if lim.mapItems >= 0 then Min(lim.mapItems, |fields|) else Max(0, |fields| + lim.mapItems)
    ensures var r := Bounded(Obj(fields), depth, lim);
      && (r.None? <==> depth < 0 || exists i :: 0 <= i < count && Bounded(fields[i].val, depth - 1, lim).None?)
      && (r.Some? ==>
           && r.value.Obj? && |r.value.fields| == count
           && forall i :: 0 <= i < count ==>
                && r.value.fields[i].name == fields[i].name
                && Bounded(fields[i].val, depth - 1, lim) == Some(r.value.fields[i].val))
  {
    if depth >= 0 { FieldsOneByOne(Take(fields, lim.mapItems), depth, lim); }
  }

  /** Anything without children: strings are cut, the rest stays, and only a negative depth is an error. */
  lemma LeavesStay(v: Value, depth: int, lim: Limits)
    requires !v.Arr? && !v.Obj?
    ensures Bounded(v, depth, lim) ==
      if depth < 0 then None else if v.Str? then Some(Str(Truncate(v.s, lim.stringBytes))) else Some(v)
  {
  }

  ghost predicate BoundsOnce(v: Value, depth: int, lim: Limits)
  {
    Bounded(v, depth, lim).Some? ==> Bounded(Bounded(v, depth, lim).value, depth, lim) == Bounded(v, depth, lim)
  }

  /** Bounding twice equals bounding once, for every document, exactly when no count is negative below the root. */
  lemma BoundingIsIdempotent(depth: int, lim: Limits)
    ensures (forall v | UniqueKeys(v) :: BoundsOnce(v, depth, lim)) <==> depth <= 0 || NonnegativeCounts(lim)
  {
    if NonnegativeCounts(lim) {
      forall v ensures BoundsOnce(v, depth, lim) {
        if Bounded(v, depth, lim).Some? {
          BoundedIsWithin(v, depth, lim);
          WithinIsFixed(Bounded(v, depth, lim).value, depth, lim);
        }
      }
    } else if depth <= 0 {
      forall v ensures BoundsOnce(v, depth, lim) {
        if depth == 0 { RootBoundsOnce(v, lim); }
      }
    } else if lim.listItems < 0 {
      NegativeListCountLosesItems(depth, lim);
    } else {
      NegativeMapCountLosesFields(depth, lim);
    }
  }

  /** At depth 0 a container survives only when its slice is empty, whatever the counts. */
  lemma RootBoundsOnce(v: Value, lim: Limits)
    ensures BoundsOnce(v, 0, lim)
  {
    match v {
      case Str(s) => TruncateFixedPoints(s, lim.stringBytes);
      case Arr(items) =>
        var kept := Take(items, lim.listItems);
        if kept != [] { assert BoundedItems(kept, 0, lim).None?; }
      case Obj(fields) =>
        var kept := Take(fields, lim.mapItems);
        if kept != [] { assert BoundedFields(kept, 0, lim).None?; }
      case _ =>
    }
  }

  lemma NegativeListCountLosesItems(depth: int, lim: Limits)
    requires depth >= 1 && lim.listItems < 0
    ensures exists v :: UniqueKeys(v) && !BoundsOnce(v, depth, lim)
  {
    var v := Arr(seq(1 - lim.listItems, _ => Null));
    assert UniqueKeys(v);
    var one := [Null];
    assert Take(v.items, lim.listItems) == one;
    assert BoundedItems(one[1..], depth, lim) == Some([]);
    assert Bounded(Null, depth - 1, lim) == Some(Null) && [Null] + [] == one;
    assert BoundedItems(one, depth, lim) == Some(one);
    assert Bounded(v, depth, lim) == Some(Arr(one));
    assert Bounded(Arr(one), depth, lim) == Some(Arr([]));
    assert !BoundsOnce(v, depth, lim);
  }

  /** A run of k's: names of different lengths differ. */
  function NameOf(n: nat): string { seq(n, _ => 'k') }

  lemma NegativeMapCountLosesFields(depth: int, lim: Limits)
    requires depth >= 1 && lim.mapItems < 0
    ensures exists v :: UniqueKeys(v) && !BoundsOnce(v, depth, lim)
  {
    var v := Obj(seq(1 - lim.mapItems, (i: nat) => Field(NameOf(i), Null)));
    assert UniqueKeys(v) by {
      forall i, j | 0 <= i < j < |v.fields| ensures v.fields[i].name != v.fields[j].name {
        assert |v.fields[i].name| == i && |v.fields[j].name| == j;
      }
    }
    var one := [Field("", Null)];
    assert NameOf(0) == "" && Take(v.fields, lim.mapItems) == one;
    assert BoundedFields(one[1..], depth, lim) == Some([]);
    assert Bounded(Null, depth - 1, lim) == Some(Null) && [Field("", Null)] + [] == one;
    assert BoundedFields(one, depth, lim) == Some(one);
    assert Bounded(v, depth, lim) == Some(Obj(one));
    assert Bounded(Obj(one), depth, lim) == Some(Obj([]));
    assert !BoundsOnce(v, depth, lim);
  }

  // ---------------------------------------------------------------- canonical JSON text

  function Digits(n: nat): nat
  {
    if n < 10 then 1 else 1 + Digits(n / 10)
  }

  function Decimal(n: nat): (r: string)
    ensures |r| == Digits(n)
    ensures forall i :: 0 <= i < |r| ==> '0' <= r[i] <= '9'
  {
    if n < 10 then ['0' + n as char] else Decimal(n / 10) + ['0' + (n % 10) as char]
  }

  function IntText(n: int): string { if n < 0 then "-" + Decimal(-n) else Decimal(n) }

  function HexDigit(n: nat): char
    requires n < 16
  {
    if n < 10 then '0' + n as char else 'a' + (n - 10) as char
  }

  function Escaped(c: char): string
  {
    if c == '"' then "\\\""
    else if c == '\\' then "\\\\"
    else if c == '\n' then "\\n"
    else if c == '\r' then "\\r"
    else if c == '\t' then "\\t"
    else if c == '\U{8}' then "\\b"
    else if c == '\U{C}' then "\\f"
    else if c as int < 32 then "\\u00" + [HexDigit(c as int / 16), HexDigit(c as int % 16)]
    else [c]
  }

  function EscapedText(s: string): string
  {
    if s == "" then "" else Escaped(s[0]) + EscapedText(s[1..])
  }

  function Quoted(s: string): string { "\"" + EscapedText(s) + "\"" }

  /** A field whose value is already rendered. */
  datatype Rendered = Rendered(name: string, text: string)

  function Insert(f: Rendered, sorted: seq<Rendered>): seq<Rendered>
  {
    if sorted == [] || !Ordering.Less(sorted[0].name, f.name) then [f] + sorted
    else [sorted[0]] + Insert(f, sorted[1..])
  }

  /** `sort_keys`: fields in code-point order of their names. */
  function Sorted(fields: seq<Rendered>): seq<Rendered>
  {
    if fields == [] then [] else Insert(fields[0], Sorted(fields[1..]))
  }

  function Join(parts: seq<string>): string
  {
    if parts == [] then "" else if |parts| == 1 then parts[0] else parts[0] + "," + Join(parts[1..])
  }

  /** Compact JSON with sorted keys and raw non-ASCII characters. */
  function Text(v: Value): string
    decreases v, 1
  {
    match v
    case Null => "null"
    case Bool(b) => if b then "true" else "false"
    case Int(n) => IntText(n)
    case Str(s) => Quoted(s)
    case Arr(items) => "[" + Join(ItemTexts(items)) + "]"
    case Obj(fields) => "{" + Join(Lines(Sorted(FieldTexts(fields)))) + "}"
  }

  function ItemTexts(items: seq<Value>): seq<string>
    decreases items, 0
  {
    if items == [] then [] else [Text(items[0])] + ItemTexts(items[1..])
  }

  function FieldTexts(fields: seq<Field>): seq<Rendered>
    decreases fields, 0
  {
    if fields == [] then [] else [Rendered(fields[0].name, Text(fields[0].val))] + FieldTexts(fields[1..])
  }

  function Line(f: Rendered): string { Quoted(f.name) + ":" + f.text }

  function Lines(fields: seq<Rendered>): seq<string>
  {
    if fields == [] then [] else [Line(fields[0])] + Lines(fields[1..])
  }

  // ---------------------------------------------------------------- sizes of encoded objects

  function LinesSize(fields: seq<Rendered>): nat
  {
    if fields == [] then 0 else Size(Line(fields[0])) + LinesSize(fields[1..])
  }

  lemma {:induction false} InsertKeepsSize(f: Rendered, sorted: seq<Rendered>)
    ensures LinesSize(Insert(f, sorted)) == Size(Line(f)) + LinesSize(sorted)
    ensures |Insert(f, sorted)| == |sorted| + 1
  {
    if sorted == [] || !Ordering.Less(sorted[0].name, f.name) {
      assert ([f] + sorted)[1..] == sorted;
    } else {
      InsertKeepsSize(f, sorted[1..]);
      assert Insert(f, sorted)[1..] == Insert(f, sorted[1..]);
    }
  }

  lemma {:induction false} SortingKeepsSize(fields: seq<Rendered>)
    ensures LinesSize(Sorted(fields)) == LinesSize(fields) && |Sorted(fields)| == |fields|
  {
    if fields != [] {
      SortingKeepsSize(fields[1..]);
      InsertKeepsSize(fields[0], Sorted(fields[1..]));
    }
  }

  lemma {:induction false} JoinedSize(fields: seq<Rendered>)
    ensures Size(Join(Lines(fields))) == LinesSize(fields) + Max(0, |fields| - 1)
    ensures |Lines(fields)| == |fields|
  {
    if fields != [] {
      JoinedSize(fields[1..]);
      assert Lines(fields)[1..] == Lines(fields[1..]);
      if |fields| > 1 {
        SizeOfConcat(Line(fields[0]) + ",", Join(Lines(fields[1..])));
        SizeOfConcat(Line(fields[0]), ",");
        assert Size(",") == 1 by { assert ","[1..] == ""; }
      }
    }
  }

  function FieldsSize(fields: seq<Field>): nat
  {
    if fields == [] then 0
    else Size(Quoted(fields[0].name)) + 1 + Size(Text(fields[0].val)) + FieldsSize(fields[1..])
  }

  lemma {:induction false} FieldsSizeOfConcat(a: seq<Field>, b: seq<Field>)
    ensures FieldsSize(a + b) == FieldsSize(a) + FieldsSize(b)
  {
    if a == [] {
      assert a + b == b;
    } else {
      assert (a + b)[1..] == a[1..] + b;
      FieldsSizeOfConcat(a[1..], b);
    }
  }

  lemma {:induction false} RenderedSize(fields: seq<Field>)
    ensures LinesSize(FieldTexts(fields)) == FieldsSize(fields) && |FieldTexts(fields)| == |fields|
  {
    if fields != [] {
      RenderedSize(fields[1..]);
      assert FieldTexts(fields)[1..] == FieldTexts(fields[1..]);
      var name, text := Quoted(fields[0].name), Text(fields[0].val);
      SizeOfConcat(name + ":", text);
      SizeOfConcat(name, ":");
      assert Size(":") == 1 by { assert ":"[1..] == ""; }
    }
  }

  /** Sorting aside, an object's size is its fields plus braces and commas. */
  lemma ObjectSize(fields: seq<Field>)
    ensures Size(Text(Obj(fields))) == 2 + FieldsSize(fields) + Max(0, |fields| - 1)
  {
    RenderedSize(fields);
    SortingKeepsSize(FieldTexts(fields));
    var body := Join(Lines(Sorted(FieldTexts(fields))));
    JoinedSize(Sorted(FieldTexts(fields)));
    SizeOfConcat("{" + body, "}");
    SizeOfConcat("{", body);
    assert Size("{") == 1 by { assert "{"[1..] == ""; }
    assert Size("}") == 1 by { assert "}"[1..] == ""; }
  }

  lemma {:induction false} AsciiSize(s: string)
    requires forall i :: 0 <= i < |s| ==> s[i] as int < 0x80
    ensures Size(s) == |s|
  {
    if s != "" { AsciiSize(s[1..]); }
  }

  // ---------------------------------------------------------------- the packet and its size

  function LimitFields(lim: Limits): seq<Field>
  {
    [Field("max_bytes", Int(lim.maxBytes)), Field("max_fields", Int(lim.maxFields)),
     Field("string_bytes", Int(lim.stringBytes)), Field("list_items", Int(lim.listItems)),
     Field("map_items", Int(lim.mapItems)), Field("max_depth", Int(lim.maxDepth))]
  }

  function MetricFields(count: nat, byteCount: nat, ceiling: nat): seq<Field>
  {
    [Field("field_count", Int(count))] +
    ([Field("byte_count", Int(byteCount))] + [Field("conservative_token_ceiling", Int(ceiling))])
  }

  function PacketHead(kind: string, bounded: seq<Field>, lim: Limits): seq<Field>
  {
    [Field("version", Int(1)), Field("kind", Str(kind)), Field("fields", Obj(bounded)),
      Field("limits", Obj(LimitFields(lim)))]
  }

  function Packet(kind: string, bounded: seq<Field>, lim: Limits, byteCount: nat, ceiling: nat): seq<Field>
  {
    PacketHead(kind, bounded, lim) + [Field("metrics", Obj(MetricFields(|bounded|, byteCount, ceiling)))]
  }

  function EncodePacket(packet: seq<Field>): seq<Byte> { Encode(Text(Obj(packet))) }

  lemma IntFieldSize(name: string, n: nat)
    ensures FieldsSize([Field(name, Int(n))]) == Size(Quoted(name)) + 1 + Digits(n)
  {
    AsciiSize(Decimal(n));
    assert [Field(name, Int(n))][1..] == [];
  }

  lemma MetricsSize(count: nat, x: nat, y: nat)
    ensures Size(Text(Obj(MetricFields(count, x, y)))) ==
      Size(Text(Obj(MetricFields(count, 0, 0)))) - 2 + Digits(x) + Digits(y)
  {
    ObjectSize(MetricFields(count, x, y));
    ObjectSize(MetricFields(count, 0, 0));
    MetricFieldsSize(count, x, y);
    MetricFieldsSize(count, 0, 0);
  }

  lemma MetricFieldsSize(count: nat, x: nat, y: nat)
    ensures FieldsSize(MetricFields(count, x, y)) ==
      FieldsSize([Field("field_count", Int(count))]) + Size(Quoted("byte_count")) +
        Size(Quoted("conservative_token_ceiling")) + 2 + Digits(x) + Digits(y)
  {
    var a, b, c := [Field("field_count", Int(count))], [Field("byte_count", Int(x))],
      [Field("conservative_token_ceiling", Int(y))];
    FieldsSizeOfConcat(a, b + c);
    FieldsSizeOfConcat(b, c);
    IntFieldSize("byte_count", x);
    IntFieldSize("conservative_token_ceiling", y);
  }

  /** The encoded size without the two metric numbers. */
  function BaseSize(kind: string, bounded: seq<Field>, lim: Limits): int
  {
    |EncodePacket(Packet(kind, bounded, lim, 0, 0))| - 2
  }

  lemma PacketSize(kind: string, bounded: seq<Field>, lim: Limits, x: nat, y: nat)
    ensures BaseSize(kind, bounded, lim) >= 0
    ensures |EncodePacket(Packet(kind, bounded, lim, x, y))| == BaseSize(kind, bounded, lim) + Digits(x) + Digits(y)
  {
    MetricsSize(|bounded|, x, y);
    PacketSizeByParts(kind, bounded, lim, x, y);
    PacketSizeByParts(kind, bounded, lim, 0, 0);
  }

  lemma PacketSizeByParts(kind: string, bounded: seq<Field>, lim: Limits, x: nat, y: nat)
    ensures |EncodePacket(Packet(kind, bounded, lim, x, y))| ==
      7 + FieldsSize(PacketHead(kind, bounded, lim)) + Size(Quoted("metrics")) +
        Size(Text(Obj(MetricFields(|bounded|, x, y))))
  {
    var head, metrics := PacketHead(kind, bounded, lim), [Field("metrics", Obj(MetricFields(|bounded|, x, y)))];
    ObjectSize(head + metrics);
    FieldsSizeOfConcat(head, metrics);
    assert metrics[1..] == [];
    assert FieldsSize(metrics) == Size(Quoted("metrics")) + 1 + Size(Text(Obj(MetricFields(|bounded|, x, y))));
  }

  // ---------------------------------------------------------------- the self-referential size

  /** One round: write the current size into both metrics and measure again. */
  function Remeasure(base: nat, size: nat): nat { base + 2 * Digits(size) }

  function Rounds(base: nat, k: nat): nat
  {
    if k == 0 then 0 else Remeasure(base, Rounds(base, k - 1))
  }

  lemma {:induction false} DigitsMonotone(a: nat, b: nat)
    requires a <= b
    ensures Digits(a) <= Digits(b)
  {
    if a >= 10 { DigitsMonotone(a / 10, b / 10); }
  }

  lemma {:induction false} DigitsAtMost(n: nat)
    requires n >= 1
    ensures Digits(n) <= n
  {
    if n >= 10 { DigitsAtMost(n / 10); }
  }

  /** Growing a number by twice its digit count adds at most one digit. */
  lemma DigitsGrowByOne(n: nat, m: nat)
    requires n >= 1 && n <= m <= n + 2 * Digits(n)
    ensures Digits(n) <= Digits(m) <= Digits(n) + 1
  {
    DigitsAtMost(n);
    DigitsMonotone(n, m);
    DigitsMonotone(m, 10 * n);
    assert 10 * n / 10 == n;
  }

  /** Sizes never shrink from round to round, and from the third round on they stand still. */
  lemma {:induction false} SizeSettles(base: nat, k: nat)
    ensures Rounds(base, k) <= Rounds(base, k + 1)
    ensures k >= 3 ==> Rounds(base, k) == Rounds(base, 3) == Remeasure(base, Rounds(base, 3))
  {
    if k == 3 {
      var x1, x2 := base + 2, base + 2 * Digits(base + 2);
      assert Rounds(base, 1) == x1 && Rounds(base, 2) == x2;
      DigitsGrowByOne(x1, x2);
      DigitsGrowByOne(x1, base + 2 * Digits(x2));
      DigitsMonotone(x2, base + 2 * Digits(x2));
    } else if k > 3 {
      SizeSettles(base, k - 1);
    } else if k > 0 {
      SizeSettles(base, k - 1);
      DigitsMonotone(Rounds(base, k - 1), Rounds(base, k));
    }
  }

  /** A size that repeats is the settled one. */
  lemma RepeatedSizeIsSettled(base: nat, k: nat)
    requires Remeasure(base, Rounds(base, k)) == Rounds(base, k)
    ensures Rounds(base, k) == Rounds(base, 3)
  {
    if k >= 3 {
      SizeSettles(base, k);
    } else {
      assert Rounds(base, k + 1) == Rounds(base, k);
      assert Rounds(base, k + 2) == Rounds(base, k + 1);
      assert Rounds(base, k + 3) == Rounds(base, k + 2);
    }
  }

  // ---------------------------------------------------------------- build and serialize

  datatype PacketError = InvalidKindOrCount | DepthExceeded | Unstable | TooLarge | ByteCountMismatch

  function Serialize(packet: seq<Field>): Result<seq<Byte>, PacketError>
  {
    var encoded := EncodePacket(packet);
    match Get(packet, "metrics")
    case Some(Obj(metrics)) => if Get(metrics, "byte_count") == Some(Int(|encoded|)) then Ok(encoded)
      else Err(ByteCountMismatch)
    case _ => Err(ByteCountMismatch)
  }

  /** The size every packet settles on. */
  function SettledSize(kind: string, bounded: seq<Field>, lim: Limits): nat
  {
    PacketSize(kind, bounded, lim, 0, 0);
    Rounds(BaseSize(kind, bounded, lim), 3)
  }

  lemma BuiltPacketSerializes(kind: string, bounded: seq<Field>, lim: Limits)
    ensures var n := SettledSize(kind, bounded, lim); var packet := Packet(kind, bounded, lim, n, n);
      |EncodePacket(packet)| == n && Serialize(packet) == Ok(EncodePacket(packet))
  {
    var n := SettledSize(kind, bounded, lim);
    PacketSize(kind, bounded, lim, n, n);
    SizeSettles(BaseSize(kind, bounded, lim), 3);
    MetricsOf(kind, bounded, lim, n);
  }

  lemma MetricsOf(kind: string, bounded: seq<Field>, lim: Limits, n: nat)
    ensures Get(Packet(kind, bounded, lim, n, n), "metrics") == Some(Obj(MetricFields(|bounded|, n, n)))
    ensures Get(MetricFields(|bounded|, n, n), "byte_count") == Some(Int(n))
  {
    var packet := Packet(kind, bounded, lim, n, n);
    GetAt(packet, "metrics", 4);
    GetAt(MetricFields(|bounded|, n, n), "byte_count", 1);
  }

  lemma {:induction false} GetAt(fields: seq<Field>, key: string, i: nat)
    requires i < |fields| && fields[i].name == key && forall j :: 0 <= j < i ==> fields[j].name != key
    ensures Get(fields, key) == Some(fields[i].val)
  {
    if i > 0 { GetAt(fields[1..], key, i - 1); }
  }

  lemma PacketShape(kind: string, bounded: seq<Field>, lim: Limits, n: nat)
    ensures var packet := Packet(kind, bounded, lim, n, n);
      && |packet| == 5
      && Get(packet, "version") == Some(Int(1)) && Get(packet, "kind") == Some(Str(kind))
      && Get(packet, "fields") == Some(Obj(bounded))
      && Get(packet, "limits") == Some(Obj([
           Field("max_bytes", Int(lim.maxBytes)), Field("max_fields", Int(lim.maxFields)),
           Field("string_bytes", Int(lim.stringBytes)), Field("list_items", Int(lim.listItems)),
           Field("map_items", Int(lim.mapItems)), Field("max_depth", Int(lim.maxDepth))]))
      && Get(packet, "metrics") == Some(Obj([
           Field("field_count", Int(|bounded|)), Field("byte_count", Int(n)),
           Field("conservative_token_ceiling", Int(n))]))
  {
    var packet := Packet(kind, bounded, lim, n, n);
    GetAt(packet, "version", 0);
    GetAt(packet, "kind", 1);
    GetAt(packet, "fields", 2);
    GetAt(packet, "limits", 3);
    GetAt(packet, "metrics", 4);
    assert MetricFields(|bounded|, n, n) ==
      [Field("field_count", Int(|bounded|)), Field("byte_count", Int(n)), Field("conservative_token_ceiling", Int(n))];
  }

  method BuildPacket(kind: string, fields: seq<Field>, lim: Limits) returns (r: Result<seq<Field>, PacketError>)
    ensures r == Err(InvalidKindOrCount) <==> kind == "" || |fields| > lim.maxFields
    ensures r == Err(DepthExceeded) <==>
      !(kind == "" || |fields| > lim.maxFields) && Bounded(Obj(fields), lim.maxDepth, lim).None?
    ensures r.Err? ==> r.error in {InvalidKindOrCount, DepthExceeded, TooLarge}
    ensures r == Err(TooLarge) ==>
      && Bounded(Obj(fields), lim.maxDepth, lim).Some?
      && SettledSize(kind, Bounded(Obj(fields), lim.maxDepth, lim).value.fields, lim) > lim.maxBytes
    ensures r.Ok? ==>
      && Bounded(Obj(fields), lim.maxDepth, lim).Some?
      && (var bounded := Bounded(Obj(fields), lim.maxDepth, lim).value.fields;
          var n := SettledSize(kind, bounded, lim);
          && r.value == Packet(kind, bounded, lim, n, n)
          && n == |EncodePacket(r.value)| <= lim.maxBytes)
      && Serialize(r.value) == Ok(EncodePacket(r.value))
    // the packet says what it was built from, and its fields are the first ones, each bounded in its place
    ensures r.Ok? ==>
      && Get(r.value, "version") == Some(Int(1)) && Get(r.value, "kind") == Some(Str(kind))
      && Get(r.value, "fields").Some? && Get(r.value, "fields").value.Obj?
    ensures r.Ok? ==>
      var kept := Get(r.value, "fields").value.fields;
      && |kept| == (if lim.mapItems >= 0 then Min(lim.mapItems, |fields|) else Max(0, |fields| + lim.mapItems))
      && (forall i :: 0 <= i < |kept| ==>
           kept[i].name == fields[i].name && Bounded(fields[i].val, lim.maxDepth - 1, lim) == Some(kept[i].val))
      && Get(r.value, "metrics") == Some(Obj([
           Field("field_count", Int(|kept|)), Field("byte_count", Int(|EncodePacket(r.value)|)),
           Field("conservative_token_ceiling", Int(|EncodePacket(r.value)|))]))
  {
    if kind == "" || |fields| > lim.maxFields {
      return Err(InvalidKindOrCount);
    }
    var attempt := Bounded(Obj(fields), lim.maxDepth, lim);
    if attempt.None? {
      return Err(DepthExceeded);
    }
    var bounded := attempt.value.fields;
    ghost var base := BaseSize(kind, bounded, lim);
    PacketSize(kind, bounded, lim, 0, 0);
    BuiltPacketSerializes(kind, bounded, lim);
    var byteCount, ceiling := 0, 0;
    var round := 0;
    while round < 8
      invariant 0 <= round <= 8
      invariant byteCount == ceiling == Rounds(base, round)
    {
      var size := |EncodePacket(Packet(kind, bounded, lim, byteCount, ceiling))|;
      PacketSize(kind, bounded, lim, byteCount, ceiling);
      if byteCount == size && ceiling == size {
        RepeatedSizeIsSettled(base, round);
        break;
      }
      byteCount, ceiling := size, size;
      round := round + 1;
    }
    SizeSettles(base, 8);
    var packet := Packet(kind, bounded, lim, byteCount, ceiling);
    var finalSize := |EncodePacket(packet)|;
    if finalSize != byteCount {
      return Err(Unstable);
    }
    if finalSize > lim.maxBytes {
      return Err(TooLarge);
    }
    PacketShape(kind, bounded, lim, byteCount);
    FirstFieldsAreKept(fields, lim.maxDepth, lim,
                       if lim.mapItems >= 0 then Min(lim.mapItems, |fields|) else Max(0, |fields| + lim.mapItems));
    return Ok(packet);
  }
}
