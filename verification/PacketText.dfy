/**
  Reading a packet's text back: JSON (RFC 8259) without white space.  The text of every document reads back as the
  document with its keys sorted, so nothing is lost or run together by escaping, joining or sorting.
 */
module PacketText {
  import opened Basics
  import opened Json
  import opened Utf8
  import opened ContextPacket
  import Ordering

  // ---------------------------------------------------------------- sorted documents

  function InsertField(f: Field, sorted: seq<Field>): seq<Field>
  {
    if sorted == [] || !Ordering.Less(sorted[0].name, f.name) then [f] + sorted
    else [sorted[0]] + InsertField(f, sorted[1..])
  }

  function SortFields(fields: seq<Field>): seq<Field>
  {
    if fields == [] then [] else InsertField(fields[0], SortFields(fields[1..]))
  }

  /** The document with the keys of every object in order. */
  function Canonical(v: Value): Value
    decreases v, 1
  {
    match v
    case Arr(items) => Arr(CanonicalItems(items))
    case Obj(fields) => Obj(SortFields(CanonicalFields(fields)))
    case _ => v
  }

  function CanonicalItems(items: seq<Value>): seq<Value>
    decreases items, 0
  {
    if items == [] then [] else [Canonical(items[0])] + CanonicalItems(items[1..])
  }

  function CanonicalFields(fields: seq<Field>): seq<Field>
    decreases fields, 0
  {
    if fields == [] then []
    else [Field(fields[0].name, Canonical(fields[0].val))] + CanonicalFields(fields[1..])
  }

  lemma {:induction false} InsertedField(f: Field, sorted: seq<Field>)
    requires forall i, j :: 0 <= i < j < |sorted| ==> !Ordering.Less(sorted[j].name, sorted[i].name)
    ensures var r := InsertField(f, sorted);
      && multiset(r) == multiset(sorted) + multiset{f}
      && forall i, j :: 0 <= i < j < |r| ==> !Ordering.Less(r[j].name, r[i].name)
  {
    if sorted == [] || !Ordering.Less(sorted[0].name, f.name) {
      forall j | 0 <= j < |sorted| ensures !Ordering.Less(sorted[j].name, f.name) {
        NotLess(sorted[j].name, sorted[0].name, f.name);
      }
    } else {
      var rest := InsertField(f, sorted[1..]);
      InsertedField(f, sorted[1..]);
      assert sorted == [sorted[0]] + sorted[1..];
      forall j | 0 <= j < |rest| ensures !Ordering.Less(rest[j].name, sorted[0].name) {
        assert rest[j] in multiset(rest);
        if rest[j] == f {
          Ordering.LessTotal(sorted[0].name, f.name);
        } else {
          assert rest[j] in sorted[1..];
          var i :| 0 <= i < |sorted[1..]| && sorted[1..][i] == rest[j];
          assert sorted[i + 1] == rest[j];
        }
      }
    }
  }

  lemma NotLess(a: string, b: string, c: string)
    requires a == b || !Ordering.Less(a, b)
    requires !Ordering.Less(b, c)
    ensures !Ordering.Less(a, c)
  {
    Ordering.LessTotal(a, b);
    if Ordering.Less(a, c) && a != b { Ordering.LessTransitive(b, a, c); }
  }

  /** Sorting keeps every field and puts the names in order. */
  lemma {:induction false} SortedFields(fields: seq<Field>)
    ensures multiset(SortFields(fields)) == multiset(fields)
    ensures var r := SortFields(fields); forall i, j :: 0 <= i < j < |r| ==> !Ordering.Less(r[j].name, r[i].name)
  {
    if fields != [] {
      SortedFields(fields[1..]);
      InsertedField(fields[0], SortFields(fields[1..]));
      assert fields == [fields[0]] + fields[1..];
    }
  }

  // ---------------------------------------------------------------- text without sorting

  function Raw(v: Value): string
    decreases v, 1
  {
    match v
    case Arr(items) => "[" + Join(RawItems(items)) + "]"
    case Obj(fields) => "{" + Join(Lines(RawFields(fields))) + "}"
    case _ => Text(v)
  }

  function RawItems(items: seq<Value>): seq<string>
    decreases items, 0
  {
    if items == [] then [] else [Raw(items[0])] + RawItems(items[1..])
  }

  function RawFields(fields: seq<Field>): seq<Rendered>
    decreases fields, 0
  {
    if fields == [] then [] else [Rendered(fields[0].name, Raw(fields[0].val))] + RawFields(fields[1..])
  }

  lemma {:induction false} InsertCommutes(f: Field, sorted: seq<Field>)
    ensures Insert(Rendered(f.name, Raw(f.val)), RawFields(sorted)) == RawFields(InsertField(f, sorted))
  {
    if sorted != [] {
      assert RawFields(sorted)[1..] == RawFields(sorted[1..]);
      if Ordering.Less(sorted[0].name, f.name) { InsertCommutes(f, sorted[1..]); }
    }
  }

  lemma {:induction false} SortCommutes(fields: seq<Field>)
    ensures Sorted(RawFields(fields)) == RawFields(SortFields(fields))
  {
    if fields != [] {
      SortCommutes(fields[1..]);
      InsertCommutes(fields[0], SortFields(fields[1..]));
      assert RawFields(fields)[1..] == RawFields(fields[1..]);
    }
  }

  lemma {:induction false} TextIsRaw(v: Value)
    ensures Text(v) == Raw(Canonical(v))
    decreases v, 1
  {
    match v {
      case Arr(items) => ItemTextsAreRaw(items);
      case Obj(fields) =>
        FieldTextsAreRaw(fields);
        SortCommutes(CanonicalFields(fields));
      case _ =>
    }
  }

  lemma {:induction false} ItemTextsAreRaw(items: seq<Value>)
    ensures ItemTexts(items) == RawItems(CanonicalItems(items))
    decreases items, 0
  {
    if items != [] {
      TextIsRaw(items[0]);
      ItemTextsAreRaw(items[1..]);
      assert CanonicalItems(items)[1..] == CanonicalItems(items[1..]);
    }
  }

  lemma {:induction false} FieldTextsAreRaw(fields: seq<Field>)
    ensures FieldTexts(fields) == RawFields(CanonicalFields(fields))
    decreases fields, 0
  {
    if fields != [] {
      TextIsRaw(fields[0].val);
      FieldTextsAreRaw(fields[1..]);
      assert CanonicalFields(fields)[1..] == CanonicalFields(fields[1..]);
    }
  }

  // ---------------------------------------------------------------- the reader

  datatype Parsed<+T> = Parsed(value: T, rest: string)

  predicate Digit(c: char) { '0' <= c <= '9' }

  /** How many digits the text starts with. */
  function DigitCount(t: string): (n: nat)
    ensures n <= |t|
  {
    if t == "" || !Digit(t[0]) then 0 else 1 + DigitCount(t[1..])
  }

  function NumberOf(digits: string): nat
    requires forall i :: 0 <= i < |digits| ==> Digit(digits[i])
  {
    if digits == "" then 0
    else
      assert Digit(digits[|digits| - 1]);
      10 * NumberOf(digits[..|digits| - 1]) + (digits[|digits| - 1] as int - '0' as int)
  }

  lemma {:induction false} DigitsAreDigits(t: string)
    ensures forall i :: 0 <= i < DigitCount(t) ==> Digit(t[i])
  {
    if t != "" && Digit(t[0]) { DigitsAreDigits(t[1..]); }
  }

  function ReadNat(t: string): (r: Option<Parsed<nat>>)
    ensures r.Some? ==> |r.value.rest| < |t|
  {
    var n := DigitCount(t);
    DigitsAreDigits(t);
    if n == 0 then None else Some(Parsed(NumberOf(t[..n]), t[n..]))
  }

  function HexValue(c: char): Option<nat>
  {
    if Digit(c) then Some(c as int - '0' as int)
    else if 'a' <= c <= 'f' then Some(c as int - 'a' as int + 10)
    else if 'A' <= c <= 'F' then Some(c as int - 'A' as int + 10)
    else None
  }

  /** The character of four hexadecimal digits; half a surrogate pair is none. */
  function HexChar(t: string): Option<char>
    requires |t| >= 4
  {
    match (HexValue(t[0]), HexValue(t[1]), HexValue(t[2]), HexValue(t[3]))
    case (Some(a), Some(b), Some(c), Some(d)) =>
      var n := 4096 * a + 256 * b + 16 * c + d;
      if n < 0xD800 || 0xE000 <= n < 0x10000 then Some(n as char) else None
    case _ => None
  }

  /** The character an escape stands for, after the backslash, and how long it is. */
  function ReadEscape(t: string): (r: Option<(char, nat)>)
    ensures r.Some? ==> r.value.1 <= |t|
  {
    if t == "" then None
    else if t[0] == '"' || t[0] == '\\' || t[0] == '/' then Some((t[0], 1))
    else if t[0] == 'n' then Some(('\n', 1))
    else if t[0] == 'r' then Some(('\r', 1))
    else if t[0] == 't' then Some(('\t', 1))
    else if t[0] == 'b' then Some(('\U{8}', 1))
    else if t[0] == 'f' then Some(('\U{C}', 1))
    else if t[0] == 'u' && |t| >= 5 && HexChar(t[1..]).Some? then Some((HexChar(t[1..]).value, 5))
    else None
  }

  /** A string after its opening quote; control characters must be escaped. */
  function ReadString(t: string): (r: Option<Parsed<string>>)
    ensures r.Some? ==> |r.value.rest| < |t|
    decreases |t|
  {
    if t == "" then None
    else if t[0] == '"' then Some(Parsed("", t[1..]))
    else if t[0] == '\\' then
      (match ReadEscape(t[1..])
       case Some(e) => Prepend(e.0, ReadString(t[1 + e.1..]))
       case None => None)
    else if t[0] as int < 32 then None
    else Prepend(t[0], ReadString(t[1..]))
  }

  function Prepend(c: char, r: Option<Parsed<string>>): (r': Option<Parsed<string>>)
    ensures r'.Some? <==> r.Some?
    ensures r.Some? ==> r'.value.rest == r.value.rest
  {
    match r case Some(p) => Some(Parsed([c] + p.value, p.rest)) case None => None
  }

  /** One of the three words. */
  function ReadWord(t: string): (r: Option<Parsed<Value>>)
    ensures r.Some? ==> |r.value.rest| < |t|
  {
    if "null" <= t then Some(Parsed(Null, t[4..]))
    else if "true" <= t then Some(Parsed(Bool(true), t[4..]))
    else if "false" <= t then Some(Parsed(Bool(false), t[5..]))
    else None
  }

  function ReadNumber(t: string): (r: Option<Parsed<Value>>)
    ensures r.Some? ==> |r.value.rest| < |t|
  {
    var negative := t != "" && t[0] == '-';
    match ReadNat(if negative then t[1..] else t)
    case Some(p) => Some(Parsed(Int(if negative then 0 - p.value as int else p.value as int), p.rest))
    case None => None
  }

  function ReadValue(t: string): (r: Option<Parsed<Value>>)
    ensures r.Some? ==> |r.value.rest| < |t|
    decreases |t|, 0
  {
    if t == "" then None
    else if t[0] == '"' then
      (match ReadString(t[1..]) case Some(p) => Some(Parsed(Str(p.value), p.rest)) case None => None)
    else if t[0] == '[' then
      if |t| > 1 && t[1] == ']' then Some(Parsed(Arr([]), t[2..]))
      else (match ReadItems(t[1..]) case Some(p) => Some(Parsed(Arr(p.value), p.rest)) case None => None)
    else if t[0] == '{' then
      if |t| > 1 && t[1] == '}' then Some(Parsed(Obj([]), t[2..]))
      else (match ReadFields(t[1..]) case Some(p) => Some(Parsed(Obj(p.value), p.rest)) case None => None)
    else if t[0] == '-' || Digit(t[0]) then ReadNumber(t)
    else ReadWord(t)
  }

  /** One or more values, separated by commas, up to the closing bracket. */
  function ReadItems(t: string): (r: Option<Parsed<seq<Value>>>)
    ensures r.Some? ==> |r.value.rest| < |t|
    decreases |t|, 1
  {
    match ReadValue(t)
    case None => None
    case Some(first) =>
      if first.rest == "" then None
      else if first.rest[0] == ']' then Some(Parsed([first.value], first.rest[1..]))
      else if first.rest[0] == ',' then
        (match ReadItems(first.rest[1..])
         case Some(p) => Some(Parsed([first.value] + p.value, p.rest))
         case None => None)
      else None
  }

  /** One key and its value. */
  function ReadField(t: string): (r: Option<Parsed<Field>>)
    ensures r.Some? ==> |r.value.rest| < |t|
    decreases |t|, 1
  {
    if t == "" || t[0] != '"' then None
    else match ReadString(t[1..])
      case None => None
      case Some(name) =>
        if name.rest == "" || name.rest[0] != ':' then None
        else match ReadValue(name.rest[1..])
          case Some(p) => Some(Parsed(Field(name.value, p.value), p.rest))
          case None => None
  }

  function ReadFields(t: string): (r: Option<Parsed<seq<Field>>>)
    ensures r.Some? ==> |r.value.rest| < |t|
    decreases |t|, 2
  {
    match ReadField(t)
    case None => None
    case Some(first) =>
      if first.rest == "" then None
      else if first.rest[0] == '}' then Some(Parsed([first.value], first.rest[1..]))
      else if first.rest[0] == ',' then
        (match ReadFields(first.rest[1..])
         case Some(p) => Some(Parsed([first.value] + p.value, p.rest))
         case None => None)
      else None
  }

  // ---------------------------------------------------------------- numbers and strings read back

  lemma {:induction false} NumberOfDecimal(n: nat)
    ensures NumberOf(Decimal(n)) == n
  {
    var d := Decimal(n);
    if n >= 10 {
      NumberOfDecimal(n / 10);
      assert d[..|d| - 1] == Decimal(n / 10);
    } else {
      assert d[..|d| - 1] == "" && NumberOf("") == 0;
    }
  }

  lemma {:induction false} CountDigits(digits: string, rest: string)
    requires forall i :: 0 <= i < |digits| ==> Digit(digits[i])
    requires rest == "" || !Digit(rest[0])
    ensures DigitCount(digits + rest) == |digits|
  {
    if digits == "" {
      assert digits + rest == rest;
    } else {
      assert (digits + rest)[1..] == digits[1..] + rest;
      CountDigits(digits[1..], rest);
    }
  }

  lemma ReadDecimal(n: nat, rest: string)
    requires rest == "" || !Digit(rest[0])
    ensures ReadNat(Decimal(n) + rest) == Some(Parsed(n, rest))
  {
    var t := Decimal(n) + rest;
    CountDigits(Decimal(n), rest);
    NumberOfDecimal(n);
    assert t[..|Decimal(n)|] == Decimal(n) && t[|Decimal(n)|..] == rest;
  }

  lemma HexDigitValue(n: nat)
    requires n < 16
    ensures HexValue(HexDigit(n)) == Some(n)
  {
  }

  /** A control character without a short escape. */
  lemma ReadHexEscape(c: char, rest: string)
    requires c as int < 32
    ensures var h := "u00" + [HexDigit(c as int / 16), HexDigit(c as int % 16)];
      ReadEscape(h + rest) == Some((c, 5)) && (h + rest)[5..] == rest
  {
    var hi, lo := c as int / 16, c as int % 16;
    HexDigitValue(hi);
    HexDigitValue(lo);
    var h := "u00" + [HexDigit(hi), HexDigit(lo)];
    var t := (h + rest)[1..];
    assert t[0] == '0' && t[1] == '0' && t[2] == HexDigit(hi) && t[3] == HexDigit(lo);
    assert HexChar(t) == Some(c);
  }

  lemma ReadAfterBackslash(h: string, c: char, rest: string)
    requires ReadEscape(h + rest) == Some((c, |h|))
    ensures ReadString(("\\" + h) + rest) == Prepend(c, ReadString(rest))
  {
    var t := ("\\" + h) + rest;
    assert t[1..] == h + rest && t[1 + |h|..] == rest;
  }

  lemma ReadEscapedChar(c: char, rest: string)
    ensures ReadString(Escaped(c) + rest) == Prepend(c, ReadString(rest))
  {
    var e := Escaped(c);
    if e == [c] {
      assert (e + rest)[1..] == rest;
    } else {
      assert e == "\\" + e[1..];
      if |e| == 2 {
        assert e[1..] == [e[1]] && ReadEscape([e[1]] + rest) == Some((c, 1));
      } else {
        ReadHexEscape(c, rest);
        assert e[1..] == "u00" + [HexDigit(c as int / 16), HexDigit(c as int % 16)];
      }
      ReadAfterBackslash(e[1..], c, rest);
    }
  }

  lemma {:induction false} ReadEscapedText(s: string, rest: string)
    ensures ReadString(EscapedText(s) + ("\"" + rest)) == Some(Parsed(s, rest))
  {
    if s == "" {
      assert EscapedText(s) + ("\"" + rest) == "\"" + rest && ("\"" + rest)[1..] == rest;
    } else {
      var tail := EscapedText(s[1..]) + ("\"" + rest);
      assert EscapedText(s) + ("\"" + rest) == Escaped(s[0]) + tail;
      ReadEscapedChar(s[0], tail);
      ReadEscapedText(s[1..], rest);
      assert [s[0]] + s[1..] == s;
    }
  }

  // ---------------------------------------------------------------- documents read back

  /** No text of a value starts with what closes a list. */
  lemma RawStarts(v: Value)
    ensures Raw(v) != "" && Raw(v)[0] != ']'
  {
    match v {
      case Int(n) => if n >= 0 { assert '0' <= Decimal(n)[0] <= '9'; }
      case _ =>
    }
  }

  lemma ReadPlain(t: string, n: nat, rest: string)
    requires t != "" && Digit(t[0]) && ReadNat(t) == Some(Parsed(n, rest))
    ensures ReadNumber(t) == Some(Parsed(Int(n), rest))
  {
  }

  lemma ReadNegative(t: string, n: int, rest: string)
    requires ReadNat(t).Some? && ReadNat(t).value.value == n && ReadNat(t).value.rest == rest
    ensures ReadNumber("-" + t) == Some(Parsed(Int(-n), rest))
  {
    assert ("-" + t)[1..] == t;
  }

  lemma ReadIntText(n: int, rest: string)
    requires rest == "" || !Digit(rest[0])
    ensures ReadNumber(IntText(n) + rest) == Some(Parsed(Int(n), rest))
    ensures IntText(n)[0] == '-' || Digit(IntText(n)[0])
  {
    if n < 0 {
      ReadDecimal(-n, rest);
      ReadNegative(Decimal(-n) + rest, -n, rest);
      assert IntText(n) + rest == "-" + (Decimal(-n) + rest);
    } else {
      ReadDecimal(n, rest);
      assert Digit(Decimal(n)[0]);
      ReadPlain(Decimal(n) + rest, n, rest);
    }
  }

  lemma ReadTheWords(rest: string)
    ensures ReadWord("null" + rest) == Some(Parsed(Null, rest))
    ensures ReadWord("true" + rest) == Some(Parsed(Bool(true), rest))
    ensures ReadWord("false" + rest) == Some(Parsed(Bool(false), rest))
  {
    var n, t, f := "null" + rest, "true" + rest, "false" + rest;
    assert n[4..] == rest && t[4..] == rest && f[5..] == rest;
    assert n[0] == 'n' && t[0] == 't' && f[0] == 'f';
  }

  lemma ReadQuoted(s: string, rest: string)
    ensures (Quoted(s) + rest)[0] == '"' && ReadString((Quoted(s) + rest)[1..]) == Some(Parsed(s, rest))
  {
    assert (Quoted(s) + rest)[1..] == EscapedText(s) + ("\"" + rest);
    ReadEscapedText(s, rest);
  }

  lemma NumberIsRead(t: string)
    requires t != "" && (t[0] == '-' || Digit(t[0]))
    ensures ReadValue(t) == ReadNumber(t)
  {
  }

  lemma StringIsRead(t: string, s: string, rest: string)
    requires t != "" && t[0] == '"' && ReadString(t[1..]) == Some(Parsed(s, rest))
    ensures ReadValue(t) == Some(Parsed(Str(s), rest))
  {
  }

  lemma WordIsRead(t: string)
    requires t != "" && (t[0] == 'n' || t[0] == 't' || t[0] == 'f')
    ensures ReadValue(t) == ReadWord(t)
  {
  }

  lemma ReadScalar(v: Value, rest: string)
    requires !v.Arr? && !v.Obj? && (rest == "" || !Digit(rest[0]))
    ensures ReadValue(Text(v) + rest) == Some(Parsed(v, rest))
  {
    var t := Text(v) + rest;
    match v {
      case Int(n) =>
        ReadIntText(n, rest);
        assert t[0] == IntText(n)[0];
        NumberIsRead(t);
      case Str(s) =>
        ReadQuoted(s, rest);
        StringIsRead(t, s, rest);
      case _ =>
        ReadTheWords(rest);
        WordIsRead(t);
    }
  }

  /** The text of a document, with anything but more digits behind it, reads back as the document. */
  lemma {:induction false} ReadRaw(v: Value, rest: string)
    requires rest == "" || !Digit(rest[0])
    ensures ReadValue(Raw(v) + rest) == Some(Parsed(v, rest))
    decreases v, 1
  {
    match v {
      case Arr(items) => ReadRawList(items, rest);
      case Obj(fields) => ReadRawObject(fields, rest);
      case _ => ReadScalar(v, rest);
    }
  }

  lemma {:induction false} ReadRawList(items: seq<Value>, rest: string)
    ensures ReadValue(Raw(Arr(items)) + rest) == Some(Parsed(Arr(items), rest))
    decreases items, 1
  {
    var t := Raw(Arr(items)) + rest;
    if items == [] {
      assert t == "[]" + rest && t[2..] == rest;
    } else {
      var inner := Join(RawItems(items)) + ("]" + rest);
      assert t == "[" + inner;
      RawStarts(items[0]);
      assert inner[0] == Raw(items[0])[0];
      ReadRawItems(items, rest);
      ListIsRead(inner, items, rest);
    }
  }

  lemma ListIsRead(inner: string, items: seq<Value>, rest: string)
    requires inner != "" && inner[0] != ']' && ReadItems(inner) == Some(Parsed(items, rest))
    ensures ReadValue("[" + inner) == Some(Parsed(Arr(items), rest))
  {
    assert ("[" + inner)[1..] == inner;
  }

  lemma ObjectIsRead(inner: string, fields: seq<Field>, rest: string)
    requires inner != "" && inner[0] != '}' && ReadFields(inner) == Some(Parsed(fields, rest))
    ensures ReadValue("{" + inner) == Some(Parsed(Obj(fields), rest))
  {
    assert ("{" + inner)[1..] == inner;
  }

  lemma JoinStep(parts: seq<string>, end: string)
    requires |parts| >= 2
    ensures Join(parts) + end == parts[0] + ("," + (Join(parts[1..]) + end))
  {
  }

  lemma JoinRawItems(items: seq<Value>, end: string)
    requires |items| >= 2
    ensures Join(RawItems(items)) + end == Raw(items[0]) + ("," + (Join(RawItems(items[1..])) + end))
  {
    assert RawItems(items)[1..] == RawItems(items[1..]);
    JoinStep(RawItems(items), end);
  }

  lemma JoinRawFields(fields: seq<Field>, end: string)
    requires |fields| >= 2
    ensures Join(Lines(RawFields(fields))) + end ==
      Line(Rendered(fields[0].name, Raw(fields[0].val))) + ("," + (Join(Lines(RawFields(fields[1..]))) + end))
  {
    var rendered := RawFields(fields);
    assert rendered[1..] == RawFields(fields[1..]) && rendered[0] == Rendered(fields[0].name, Raw(fields[0].val));
    assert Lines(rendered)[1..] == Lines(rendered[1..]) && Lines(rendered)[0] == Line(rendered[0]);
    JoinStep(Lines(rendered), end);
  }

  lemma {:induction false} ReadRawItems(items: seq<Value>, rest: string)
    requires items != []
    ensures ReadItems(Join(RawItems(items)) + ("]" + rest)) == Some(Parsed(items, rest))
    decreases items, 0
  {
    if |items| == 1 {
      assert items[1..] == [] && RawItems(items) == [Raw(items[0])];
      ReadRaw(items[0], "]" + rest);
      assert ("]" + rest)[1..] == rest && [items[0]] == items;
    } else {
      var tail := Join(RawItems(items[1..])) + ("]" + rest);
      JoinRawItems(items, "]" + rest);
      ReadRaw(items[0], "," + tail);
      assert ("," + tail)[1..] == tail;
      ReadRawItems(items[1..], rest);
      assert [items[0]] + items[1..] == items;
    }
  }

  lemma {:induction false} ReadRawObject(fields: seq<Field>, rest: string)
    ensures ReadValue(Raw(Obj(fields)) + rest) == Some(Parsed(Obj(fields), rest))
    decreases fields, 2
  {
    var t := Raw(Obj(fields)) + rest;
    if fields == [] {
      assert t == "{}" + rest && t[2..] == rest;
    } else {
      var inner := Join(Lines(RawFields(fields))) + ("}" + rest);
      assert t == "{" + inner && inner[0] == '"';
      ReadRawFields(fields, rest);
      ObjectIsRead(inner, fields, rest);
    }
  }

  /** A key, a colon and a text that reads as a value read as one field. */
  lemma ReadNamed(name: string, text: string, v: Value, rest: string)
    requires ReadValue(text) == Some(Parsed(v, rest))
    ensures ReadField(Quoted(name) + (":" + text)) == Some(Parsed(Field(name, v), rest))
  {
    ReadQuoted(name, ":" + text);
    assert (":" + text)[1..] == text;
  }

  lemma LineInThree(name: string, raw: string, rest: string)
    ensures Line(Rendered(name, raw)) + rest == Quoted(name) + (":" + (raw + rest))
  {
    assert Quoted(name) + ":" + raw + rest == Quoted(name) + (":" + (raw + rest));
  }

  lemma {:induction false} ReadRawField(f: Field, rest: string)
    requires rest == "" || !Digit(rest[0])
    ensures ReadField(Line(Rendered(f.name, Raw(f.val))) + rest) == Some(Parsed(f, rest))
    decreases f, 2
  {
    ReadRaw(f.val, rest);
    ReadNamed(f.name, Raw(f.val) + rest, f.val, rest);
    LineInThree(f.name, Raw(f.val), rest);
  }

  lemma ReadLastField(text: string, f: Field, rest: string)
    requires ReadField(text) == Some(Parsed(f, "}" + rest))
    ensures ReadFields(text) == Some(Parsed([f], rest))
  {
    assert ("}" + rest)[1..] == rest;
  }

  lemma ReadMoreFields(text: string, f: Field, tail: string, more: seq<Field>, rest: string)
    requires ReadField(text) == Some(Parsed(f, "," + tail)) && ReadFields(tail) == Some(Parsed(more, rest))
    ensures ReadFields(text) == Some(Parsed([f] + more, rest))
  {
    assert ("," + tail)[1..] == tail;
  }

  lemma {:induction false} ReadRawFields(fields: seq<Field>, rest: string)
    requires fields != []
    ensures ReadFields(Join(Lines(RawFields(fields))) + ("}" + rest)) == Some(Parsed(fields, rest))
    decreases fields, 1
  {
    var first := Line(Rendered(fields[0].name, Raw(fields[0].val)));
    assert fields == [fields[0]] + fields[1..];
    if |fields| == 1 {
      assert [fields[0]] == fields;
      OneRawField(fields[0]);
      ReadRawField(fields[0], "}" + rest);
      ReadLastField(first + ("}" + rest), fields[0], rest);
    } else {
      var tail := Join(Lines(RawFields(fields[1..]))) + ("}" + rest);
      JoinRawFields(fields, "}" + rest);
      ReadRawField(fields[0], "," + tail);
      ReadRawFields(fields[1..], rest);
      ReadMoreFields(first + ("," + tail), fields[0], tail, fields[1..], rest);
    }
  }

  lemma OneRawField(f: Field)
    ensures Join(Lines(RawFields([f]))) == Line(Rendered(f.name, Raw(f.val)))
  {
    assert [f][1..] == [] && RawFields([f]) == [Rendered(f.name, Raw(f.val))];
    assert RawFields([f])[1..] == [];
  }

  /** Reading the text of a document gives the document with its keys sorted, and nothing is left over. */
  lemma TextReadsBack(v: Value)
    ensures ReadValue(Text(v)) == Some(Parsed(Canonical(v), ""))
  {
    TextIsRaw(v);
    ReadRaw(Canonical(v), "");
    assert Raw(Canonical(v)) + "" == Raw(Canonical(v));
  }

  /** The bytes of a packet decode and read back as the packet. */
  lemma PacketReadsBack(packet: seq<Field>)
    ensures ReadValue(DecodeIgnoring(EncodePacket(packet))) == Some(Parsed(Canonical(Obj(packet)), ""))
  {
    DecodeEncoded(Text(Obj(packet)));
    TextReadsBack(Obj(packet));
  }
}
