/** The diff rows of dual_loop.py as a patch: when writing at their dotted paths gives the desired state. */
module DualLoopPatch {
  import opened DualLoop
  import Ordering

  // ---------------------------------------------------------------- key paths

  /** One row with the keys that lead to it. */
  datatype Change = Change(keys: seq<string>, desired: State, actual: State)

  function Below(key: string, changes: seq<Change>): seq<Change>
  {
    seq(|changes|, i requires 0 <= i < |changes| => changes[i].(keys := [key] + changes[i].keys))
  }

  function Changes(desired: map<string, State>, actual: map<string, State>): seq<Change>
    decreases Dict(desired), 1
  {
    ChangesOver(desired.Keys + actual.Keys, desired, actual)
  }

  function ChangesOver(keys: set<string>, desired: map<string, State>, actual: map<string, State>): seq<Change>
    decreases Dict(desired), 0, |keys| + 1
  {
    if keys == {} then []
    else
      var key := Least(keys);
      Below(key, ChangesAt(key, desired, actual)) + ChangesOver(keys - {key}, desired, actual)
  }

  /** The changes of one key, relative to it. */
  function ChangesAt(key: string, desired: map<string, State>, actual: map<string, State>): seq<Change>
    decreases Dict(desired), 0, 0
  {
    if key in desired && desired[key].Dict? && At(actual, key).Dict? then
      Changes(desired[key].fields, At(actual, key).fields)
    else if At(desired, key) != At(actual, key) then [Change([], At(desired, key), At(actual, key))]
    else []
  }

  /** The dotted path the loop builds for a key path. */
  function PathFrom(prefix: string, keys: seq<string>): string
    decreases |keys|
  {
    if keys == [] then prefix else PathFrom(Join(prefix, keys[0]), keys[1..])
  }

  function Rows(changes: seq<Change>, prefix: string): seq<Difference>
  {
    seq(|changes|, i requires 0 <= i < |changes| =>
      Difference(PathFrom(prefix, changes[i].keys), changes[i].desired, changes[i].actual))
  }

  /** The diff rows are the changes, each at the dotted path of its keys. */
  lemma {:induction false} RowsAreChanges(desired: map<string, State>, actual: map<string, State>, prefix: string)
    ensures Differences(desired, actual, prefix) == Rows(Changes(desired, actual), prefix)
    decreases Dict(desired), 1
  {
    RowsOver(desired.Keys + actual.Keys, desired, actual, prefix);
  }

  lemma {:induction false} RowsOver(
      keys: set<string>, desired: map<string, State>, actual: map<string, State>, prefix: string)
    ensures DifferencesOver(keys, desired, actual, prefix) == Rows(ChangesOver(keys, desired, actual), prefix)
    decreases Dict(desired), 0, |keys| + 1
  {
    if keys != {} {
      var key := Least(keys);
      RowsAt(key, desired, actual, prefix);
      RowsOver(keys - {key}, desired, actual, prefix);
    }
  }

  lemma {:induction false} RowsAt(key: string, desired: map<string, State>, actual: map<string, State>, prefix: string)
    ensures KeyDifferences(key, desired, actual, prefix) == Rows(Below(key, ChangesAt(key, desired, actual)), prefix)
    decreases Dict(desired), 0, 0
  {
    if key in desired && desired[key].Dict? && At(actual, key).Dict? {
      RowsAreChanges(desired[key].fields, At(actual, key).fields, Join(prefix, key));
    }
    RowsBelow(prefix, key, ChangesAt(key, desired, actual));
  }

  lemma RowsBelow(prefix: string, key: string, changes: seq<Change>)
    ensures Rows(Below(key, changes), prefix) == Rows(changes, Join(prefix, key))
  {
    forall i | 0 <= i < |changes|
      ensures PathFrom(prefix, [key] + changes[i].keys) == PathFrom(Join(prefix, key), changes[i].keys)
    {
      assert ([key] + changes[i].keys)[1..] == changes[i].keys;
    }
  }

  /** A change belongs to its first key. */
  lemma {:induction false} ChangeOfKey(
      keys: set<string>, desired: map<string, State>, actual: map<string, State>, c: Change)
    ensures c in ChangesOver(keys, desired, actual) <==>
      c.keys != [] && c.keys[0] in keys && c.(keys := c.keys[1..]) in ChangesAt(c.keys[0], desired, actual)
    decreases |keys|
  {
    if keys != {} {
      var key := Least(keys);
      ChangeOfKey(keys - {key}, desired, actual, c);
      InBelow(key, ChangesAt(key, desired, actual), c);
    }
  }

  lemma InBelow(key: string, changes: seq<Change>, c: Change)
    ensures c in Below(key, changes) <==> c.keys != [] && c.keys[0] == key && c.(keys := c.keys[1..]) in changes
  {
    if c in Below(key, changes) {
      var i :| 0 <= i < |changes| && Below(key, changes)[i] == c;
      assert c.keys[1..] == changes[i].keys;
      assert c.(keys := c.keys[1..]) == changes[i];
    }
    if c.keys != [] && c.keys[0] == key && c.(keys := c.keys[1..]) in changes {
      var i :| 0 <= i < |changes| && changes[i] == c.(keys := c.keys[1..]);
      assert [key] + c.keys[1..] == c.keys;
      assert Below(key, changes)[i] == c;
    }
  }

  /** A key with a change differs, and no change is recorded for a key that does not. */
  lemma ChangedKeyDiffers(key: string, desired: map<string, State>, actual: map<string, State>)
    ensures ChangesAt(key, desired, actual) == [] <==> Normalize(At(desired, key)) == Normalize(At(actual, key))
  {
    if key in desired && desired[key].Dict? && At(actual, key).Dict? {
      RowsAreChanges(desired[key].fields, At(actual, key).fields, "");
      ConvergedMeansAgreement(desired[key].fields, At(actual, key).fields, "");
    }
  }

  // ---------------------------------------------------------------- what a row says

  /** What a state holds at a key path. */
  function Walk(s: State, keys: seq<string>): State
    decreases |keys|
  {
    if keys == [] then s else if s.Dict? then Walk(At(s.fields, keys[0]), keys[1..]) else Null
  }

  /** A row holds what the two states have at its keys; they differ there and are not both dictionaries. */
  lemma {:induction false} ChangeShowsBothSides(desired: map<string, State>, actual: map<string, State>, c: Change)
    requires c in Changes(desired, actual)
    ensures c.desired == Walk(Dict(desired), c.keys) && c.actual == Walk(Dict(actual), c.keys)
    ensures c.desired != c.actual && !(c.desired.Dict? && c.actual.Dict?)
    decreases |c.keys|
  {
    ChangeOfFirst(desired, actual, c);
    var key, inner := c.keys[0], c.(keys := c.keys[1..]);
    if key in desired && desired[key].Dict? && At(actual, key).Dict? {
      ChangeShowsBothSides(desired[key].fields, At(actual, key).fields, inner);
    }
  }

  /** Code-point order of the first keys that differ. */
  predicate KeysBefore(a: seq<string>, b: seq<string>)
  {
    a != [] && b != [] && (Ordering.Less(a[0], b[0]) || (a[0] == b[0] && KeysBefore(a[1..], b[1..])))
  }

  /** The rows come in the order of their keys. */
  lemma {:induction false} ChangesSorted(desired: map<string, State>, actual: map<string, State>, i: nat, j: nat)
    requires i < j < |Changes(desired, actual)|
    ensures KeysBefore(Changes(desired, actual)[i].keys, Changes(desired, actual)[j].keys)
    decreases Dict(desired), 1
  {
    OverSorted(desired.Keys + actual.Keys, desired, actual, i, j);
  }

  lemma {:induction false} OverSorted(
      keys: set<string>, desired: map<string, State>, actual: map<string, State>, i: nat, j: nat)
    requires i < j < |ChangesOver(keys, desired, actual)|
    ensures KeysBefore(ChangesOver(keys, desired, actual)[i].keys, ChangesOver(keys, desired, actual)[j].keys)
    decreases Dict(desired), 0, |keys| + 1
  {
    var key := Least(keys);
    var inner := ChangesAt(key, desired, actual);
    var here, rest := Below(key, inner), ChangesOver(keys - {key}, desired, actual);
    assert ChangesOver(keys, desired, actual) == here + rest;
    if j < |here| {
      assert here[i].keys[1..] == inner[i].keys && here[j].keys[1..] == inner[j].keys;
      ChangesSorted(desired[key].fields, At(actual, key).fields, i, j);
    } else {
      assert rest[j - |here|] in rest;
      ChangeOfKey(keys - {key}, desired, actual, rest[j - |here|]);
      if i >= |here| { OverSorted(keys - {key}, desired, actual, i - |here|, j - |here|); }
    }
  }

  // ---------------------------------------------------------------- splitting paths

  /** The components of a dotted path. */
  function Split(path: string): (r: seq<string>)
    ensures r != [] && forall i :: 0 <= i < |r| ==> '.' !in r[i]
  {
    if path == "" then [""]
    else if path[0] == '.' then [""] + Split(path[1..])
    else var rest := Split(path[1..]); [[path[0]] + rest[0]] + rest[1..]
  }

  lemma {:induction false} SplitPlain(key: string)
    requires '.' !in key
    ensures Split(key) == [key]
  {
    if key != "" {
      SplitPlain(key[1..]);
      assert [key[0]] + key[1..] == key;
    }
  }

  lemma {:induction false} SplitJoined(prefix: string, key: string)
    ensures Split(prefix + "." + key) == Split(prefix) + Split(key)
  {
    var path := prefix + "." + key;
    if prefix == "" {
      assert path[1..] == key;
    } else {
      assert path[1..] == prefix[1..] + "." + key;
      SplitJoined(prefix[1..], key);
    }
  }

  /** All components of all keys, in order. */
  function Flat(keys: seq<string>): seq<string>
  {
    if keys == [] then [] else Split(keys[0]) + Flat(keys[1..])
  }

  /** Where the text path of a change leads from the root. */
  function RootPath(keys: seq<string>): seq<string> { Split(PathFrom("", keys)) }

  lemma {:induction false} SplitPathFrom(prefix: string, keys: seq<string>)
    requires prefix != ""
    ensures Split(PathFrom(prefix, keys)) == Split(prefix) + Flat(keys)
    decreases |keys|
  {
    if keys != [] {
      SplitJoined(prefix, keys[0]);
      SplitPathFrom(Join(prefix, keys[0]), keys[1..]);
    }
  }

  lemma RootPathNamed(keys: seq<string>)
    requires keys != [] && keys[0] != ""
    ensures RootPath(keys) == Flat(keys)
  {
    SplitPathFrom(keys[0], keys[1..]);
  }

  /** An empty first key leaves no trace in the path of what is below it. */
  lemma RootPathUnnamed(keys: seq<string>)
    requires keys != [] && keys[0] == ""
    ensures |keys| > 1 ==> RootPath(keys) == RootPath(keys[1..])
    ensures |keys| == 1 ==> RootPath(keys) == Flat(keys) == [""]
  {
    assert PathFrom("", keys) == PathFrom("", keys[1..]);
    if |keys| == 1 {
      assert keys[1..] == [] && Split("") == [""] && Flat([]) == [];
      assert Flat(keys) == Split("") + Flat([]);
    }
  }

  predicate DotFree(keys: seq<string>) { forall i :: 0 <= i < |keys| ==> '.' !in keys[i] }

  /** No key has a dot, and an empty root key has nothing below it. */
  predicate Addressable(keys: seq<string>) { DotFree(keys) && keys != [] && (keys[0] == "" ==> |keys| == 1) }

  lemma {:induction false} FlatOfDotFree(keys: seq<string>)
    ensures DotFree(keys) ==> Flat(keys) == keys
    ensures |Flat(keys)| >= |keys|
  {
    if keys != [] {
      FlatOfDotFree(keys[1..]);
      if DotFree(keys) { SplitPlain(keys[0]); }
    }
  }

  lemma {:induction false} RootPathLength(keys: seq<string>)
    requires DotFree(keys) && keys != []
    ensures |RootPath(keys)| <= |keys|
  {
    FlatOfDotFree(keys);
    if keys[0] != "" {
      RootPathNamed(keys);
    } else {
      RootPathUnnamed(keys);
      if |keys| > 1 { RootPathLength(keys[1..]); }
    }
  }

  /** The path of a row splits into its own keys exactly when these are addressable. */
  lemma PathLeadsHomeExactly(keys: seq<string>)
    requires keys != []
    ensures RootPath(keys) == keys <==> Addressable(keys)
  {
    FlatOfDotFree(keys);
    if keys[0] != "" {
      RootPathNamed(keys);
    } else {
      RootPathUnnamed(keys);
      if DotFree(keys) && |keys| > 1 { RootPathLength(keys[1..]); }
    }
  }

  // ---------------------------------------------------------------- no path below another

  ghost predicate KeysPrefixFree(changes: seq<Change>)
  {
    forall i, j :: 0 <= i < |changes| && 0 <= j < |changes| && i != j ==> !(changes[i].keys <= changes[j].keys)
  }

  lemma {:induction false} ChangesPrefixFree(desired: map<string, State>, actual: map<string, State>)
    ensures KeysPrefixFree(Changes(desired, actual))
    decreases Dict(desired), 1
  {
    OverPrefixFree(desired.Keys + actual.Keys, desired, actual);
  }

  lemma {:induction false} OverPrefixFree(keys: set<string>, desired: map<string, State>, actual: map<string, State>)
    ensures KeysPrefixFree(ChangesOver(keys, desired, actual))
    ensures forall i :: 0 <= i < |ChangesOver(keys, desired, actual)| ==>
      ChangesOver(keys, desired, actual)[i].keys != [] && ChangesOver(keys, desired, actual)[i].keys[0] in keys
    decreases Dict(desired), 0, |keys| + 1
  {
    if keys != {} {
      var key := Least(keys);
      if key in desired && desired[key].Dict? && At(actual, key).Dict? {
        ChangesPrefixFree(desired[key].fields, At(actual, key).fields);
      }
      OverPrefixFree(keys - {key}, desired, actual);
      BelowPrefixFree(key, ChangesAt(key, desired, actual));
      ApartPrefixFree(key, Below(key, ChangesAt(key, desired, actual)), ChangesOver(keys - {key}, desired, actual));
    }
  }

  lemma BelowPrefixFree(key: string, changes: seq<Change>)
    requires KeysPrefixFree(changes)
    ensures KeysPrefixFree(Below(key, changes))
  {
    forall i, j | 0 <= i < |changes| && 0 <= j < |changes| && i != j
      ensures !([key] + changes[i].keys <= [key] + changes[j].keys)
    {
      assert ([key] + changes[i].keys)[1..] == changes[i].keys && ([key] + changes[j].keys)[1..] == changes[j].keys;
    }
  }

  lemma ApartPrefixFree(key: string, a: seq<Change>, b: seq<Change>)
    requires KeysPrefixFree(a) && KeysPrefixFree(b)
    requires forall i :: 0 <= i < |a| ==> a[i].keys != [] && a[i].keys[0] == key
    requires forall i :: 0 <= i < |b| ==> b[i].keys != [] && b[i].keys[0] != key
    ensures KeysPrefixFree(a + b)
  {
  }

  ghost predicate AllAddressable(desired: map<string, State>, actual: map<string, State>)
  {
    forall c :: c in Changes(desired, actual) ==> Addressable(c.keys)
  }

  /** Where the differing keys are addressable, no row's path is a prefix of another's. */
  lemma PathsPrefixFree(desired: map<string, State>, actual: map<string, State>, i: nat, j: nat)
    requires AllAddressable(desired, actual)
    requires i < |Differences(desired, actual, "")| && j < |Differences(desired, actual, "")| && i != j
    ensures !(Split(Differences(desired, actual, "")[i].path) <= Split(Differences(desired, actual, "")[j].path))
  {
    var changes := Changes(desired, actual);
    RowsAreChanges(desired, actual, "");
    ChangesPrefixFree(desired, actual);
    assert changes[i] in changes && changes[j] in changes;
    PathLeadsHomeExactly(changes[i].keys);
    PathLeadsHomeExactly(changes[j].keys);
  }

  // ---------------------------------------------------------------- writing

  datatype Edit = Edit(path: seq<string>, value: State)

  /** Write at a path.  A null is as good as absent, so writing one builds no dictionaries on the way. */
  function Put(s: State, path: seq<string>, v: State): State
    decreases |path|
  {
    if path == [] then v
    else if v.Null? && !s.Dict? then s
    else
      var fields := if s.Dict? then s.fields else map[];
      Dict(fields[path[0] := Put(At(fields, path[0]), path[1..], v)])
  }

  function PutAll(s: State, edits: seq<Edit>): State
  {
    if edits == [] then s else Put(PutAll(s, edits[..|edits| - 1]), edits[|edits| - 1].path, edits[|edits| - 1].value)
  }

  /** The patch: every row's desired value is written at its path, in order. */
  function Patch(actual: map<string, State>, rows: seq<Difference>): State
  {
    PutAll(Dict(actual), seq(|rows|, i requires 0 <= i < |rows| => Edit(Split(rows[i].path), rows[i].desired)))
  }

  function EditsBy(changes: seq<Change>, path: seq<string> -> seq<string>): seq<Edit>
  {
    seq(|changes|, i requires 0 <= i < |changes| => Edit(path(changes[i].keys), changes[i].desired))
  }

  lemma PatchIsRootEdits(desired: map<string, State>, actual: map<string, State>)
    ensures Patch(actual, Differences(desired, actual, "")) ==
      PutAll(Dict(actual), EditsBy(Changes(desired, actual), RootPath))
  {
    RowsAreChanges(desired, actual, "");
    var rows, changes := Differences(desired, actual, ""), Changes(desired, actual);
    assert seq(|rows|, i requires 0 <= i < |rows| => Edit(Split(rows[i].path), rows[i].desired)) ==
      EditsBy(changes, RootPath);
  }

  /** The edits that go through one key, relative to it. */
  function Sub(edits: seq<Edit>, key: string): seq<Edit>
  {
    if edits == [] then []
    else
      var e := edits[|edits| - 1];
      Sub(edits[..|edits| - 1], key) + (if e.path != [] && e.path[0] == key then [Edit(e.path[1..], e.value)] else [])
  }

  lemma {:induction false} SubInTwo(a: seq<Edit>, b: seq<Edit>, key: string)
    ensures Sub(a + b, key) == Sub(a, key) + Sub(b, key)
  {
    if b == [] {
      assert a + b == a;
    } else {
      assert (a + b)[..|a + b| - 1] == a + b[..|b| - 1];
      SubInTwo(a, b[..|b| - 1], key);
    }
  }

  /** What a key holds afterwards is what the edits through it made of it. */
  lemma {:induction false} PutAllAt(fields: map<string, State>, edits: seq<Edit>, key: string)
    requires forall i :: 0 <= i < |edits| ==> edits[i].path != []
    ensures PutAll(Dict(fields), edits).Dict?
    ensures At(PutAll(Dict(fields), edits).fields, key) == PutAll(At(fields, key), Sub(edits, key))
  {
    if edits != [] {
      var front, e := edits[..|edits| - 1], edits[|edits| - 1];
      PutAllAt(fields, front, key);
      var sub := Sub(front, key);
      if e.path[0] == key {
        assert (sub + [Edit(e.path[1..], e.value)])[..|sub|] == sub;
      } else {
        assert sub + [] == sub;
      }
    }
  }

  lemma {:induction false} SubMember(
      changes: seq<Change>, path: seq<string> -> seq<string>, key: string, e: Edit)
    returns (c: Change)
    requires e in Sub(EditsBy(changes, path), key)
    ensures c in changes && path(c.keys) != [] && path(c.keys)[0] == key && e == Edit(path(c.keys)[1..], c.desired)
  {
    var front, last := changes[..|changes| - 1], changes[|changes| - 1];
    assert EditsBy(changes, path)[..|changes| - 1] == EditsBy(front, path);
    if e in Sub(EditsBy(front, path), key) {
      c := SubMember(front, path, key, e);
    } else {
      c := last;
    }
  }

  lemma {:induction false} SubHas(changes: seq<Change>, path: seq<string> -> seq<string>, key: string, c: Change)
    requires c in changes && path(c.keys) != [] && path(c.keys)[0] == key
    ensures Edit(path(c.keys)[1..], c.desired) in Sub(EditsBy(changes, path), key)
  {
    var front, last := changes[..|changes| - 1], changes[|changes| - 1];
    assert EditsBy(changes, path)[..|changes| - 1] == EditsBy(front, path);
    if c != last { SubHas(front, path, key, c); }
  }

  // ---------------------------------------------------------------- below the root: flat paths

  /** A key with a dot is on no path. */
  lemma {:induction false} DottedKeyUntouched(edits: seq<Edit>, key: string)
    requires '.' in key && forall i :: 0 <= i < |edits| ==> edits[i].path != [] && '.' !in edits[i].path[0]
    ensures Sub(edits, key) == []
  {
    if edits != [] { DottedKeyUntouched(edits[..|edits| - 1], key); }
  }

  ghost predicate AllDotFree(changes: seq<Change>) { forall c :: c in changes ==> DotFree(c.keys) }

  lemma EditsInTwo(a: seq<Change>, b: seq<Change>, path: seq<string> -> seq<string>)
    ensures EditsBy(a + b, path) == EditsBy(a, path) + EditsBy(b, path)
  {
  }

  /** The edits through one key, when no differing key here has a dot. */
  lemma {:induction false} FlatSub(
      keys: set<string>, desired: map<string, State>, actual: map<string, State>, key: string)
    requires forall k :: k in keys && ChangesAt(k, desired, actual) != [] ==> '.' !in k
    ensures Sub(EditsBy(ChangesOver(keys, desired, actual), Flat), key) ==
      if key in keys then EditsBy(ChangesAt(key, desired, actual), Flat) else []
    decreases |keys|
  {
    if keys != {} {
      var k := Least(keys);
      var here, rest := Below(k, ChangesAt(k, desired, actual)), ChangesOver(keys - {k}, desired, actual);
      FlatSub(keys - {k}, desired, actual, key);
      EditsInTwo(here, rest, Flat);
      SubInTwo(EditsBy(here, Flat), EditsBy(rest, Flat), key);
      FlatSubBelow(k, ChangesAt(k, desired, actual), key);
    }
  }

  lemma FlatBelow(k: string, keys: seq<string>)
    requires '.' !in k
    ensures Flat([k] + keys) == [k] + Flat(keys)
  {
    SplitPlain(k);
    assert ([k] + keys)[1..] == keys;
  }

  lemma SubOneMore(edits: seq<Edit>, e: Edit, key: string)
    ensures Sub(edits + [e], key) ==
      Sub(edits, key) + (if e.path != [] && e.path[0] == key then [Edit(e.path[1..], e.value)] else [])
  {
    assert (edits + [e])[..|edits|] == edits;
  }

  lemma OneMoreEdit(changes: seq<Change>, c: Change, path: seq<string> -> seq<string>)
    ensures EditsBy(changes + [c], path) == EditsBy(changes, path) + [Edit(path(c.keys), c.desired)]
  {
  }

  lemma OneMoreBelow(key: string, changes: seq<Change>, c: Change)
    ensures Below(key, changes + [c]) == Below(key, changes) + [c.(keys := [key] + c.keys)]
  {
  }

  lemma {:induction false} FlatSubBelow(k: string, changes: seq<Change>, key: string)
    requires changes != [] ==> '.' !in k
    ensures Sub(EditsBy(Below(k, changes), Flat), key) == if key == k then EditsBy(changes, Flat) else []
  {
    if changes != [] {
      var front, last := changes[..|changes| - 1], changes[|changes| - 1];
      assert changes == front + [last];
      FlatSubBelow(k, front, key);
      FlatBelow(k, last.keys);
      OneMoreBelow(k, front, last);
      OneMoreEdit(Below(k, front), last.(keys := [k] + last.keys), Flat);
      OneMoreEdit(front, last, Flat);
      SubOneMore(EditsBy(Below(k, front), Flat), Edit([k] + Flat(last.keys), last.desired), key);
      assert ([k] + Flat(last.keys))[1..] == Flat(last.keys);
    }
  }

  ghost predicate KeyIsRight(desired: map<string, State>, actual: map<string, State>, edits: seq<Edit>, key: string)
  {
    PutAll(Dict(actual), edits).Dict? &&
      Normalize(At(PutAll(Dict(actual), edits).fields, key)) == Normalize(At(desired, key))
  }

  ghost predicate EveryKeyRight(desired: map<string, State>, actual: map<string, State>, edits: seq<Edit>)
  {
    forall key :: KeyIsRight(desired, actual, edits, key)
  }

  ghost predicate EveryKeyDotFree(desired: map<string, State>, actual: map<string, State>)
  {
    forall k :: KeyDotFree(desired, actual, k)
  }

  ghost predicate KeyDotFree(desired: map<string, State>, actual: map<string, State>, key: string)
  {
    AllDotFree(ChangesAt(key, desired, actual))
  }

  /** All paths start somewhere, and no component has a dot. */
  ghost predicate Proper(edits: seq<Edit>)
  {
    forall i :: 0 <= i < |edits| ==> edits[i].path != [] && '.' !in edits[i].path[0]
  }

  lemma RightByKey(desired: map<string, State>, actual: map<string, State>, edits: seq<Edit>)
    requires Proper(edits)
    ensures Normalize(PutAll(Dict(actual), edits)) == Normalize(Dict(desired)) <==>
      EveryKeyRight(desired, actual, edits)
  {
    PutAllAt(actual, edits, "");
    var fields := PutAll(Dict(actual), edits).fields;
    NormalizeByKeys(fields, desired);
    if EveryKeyRight(desired, actual, edits) {
      forall key
        ensures Normalize(At(fields, key)) == Normalize(At(desired, key))
      {
        assert KeyIsRight(desired, actual, edits, key);
      }
    }
  }

  /** A change of the whole is a change of its first key, and the other way round. */
  lemma ChangeOfFirst(desired: map<string, State>, actual: map<string, State>, c: Change)
    requires c in Changes(desired, actual)
    ensures c.keys != [] && c.keys[0] in desired.Keys + actual.Keys &&
      c.(keys := c.keys[1..]) in ChangesAt(c.keys[0], desired, actual)
  {
    ChangeOfKey(desired.Keys + actual.Keys, desired, actual, c);
  }

  lemma ChangeThroughKey(
      desired: map<string, State>, actual: map<string, State>, key: string, inner: Change)
    returns (c: Change)
    requires inner in ChangesAt(key, desired, actual)
    ensures c in Changes(desired, actual) && c.keys == [key] + inner.keys && c.desired == inner.desired
  {
    assert key !in desired.Keys + actual.Keys ==> ChangesAt(key, desired, actual) == [];
    c := inner.(keys := [key] + inner.keys);
    assert c.keys[1..] == inner.keys && c.(keys := c.keys[1..]) == inner;
    ChangeOfKey(desired.Keys + actual.Keys, desired, actual, c);
  }

  /** A differing key with a dot keeps its actual value. */
  lemma DottedKeyFails(desired: map<string, State>, actual: map<string, State>, edits: seq<Edit>, key: string)
    requires '.' in key && ChangesAt(key, desired, actual) != [] && Proper(edits)
    ensures Normalize(PutAll(Dict(actual), edits)) != Normalize(Dict(desired))
  {
    PutAllAt(actual, edits, key);
    DottedKeyUntouched(edits, key);
    ChangedKeyDiffers(key, desired, actual);
    NormalizeByKeys(PutAll(Dict(actual), edits).fields, desired);
  }

  lemma DottedKeyListed(desired: map<string, State>, actual: map<string, State>, key: string) returns (c: Change)
    requires '.' in key && ChangesAt(key, desired, actual) != []
    ensures c in Changes(desired, actual) && c.keys != [] && c.keys[0] == key && !DotFree(c.keys)
  {
    c := ChangeThroughKey(desired, actual, key, ChangesAt(key, desired, actual)[0]);
    assert '.' in c.keys[0];
  }

  ghost predicate KeysHaveNoDot(desired: map<string, State>, actual: map<string, State>)
  {
    forall k :: ChangesAt(k, desired, actual) != [] ==> '.' !in k
  }

  lemma DotFreeBelow(key: string, keys: seq<string>)
    ensures DotFree([key] + keys) <==> '.' !in key && DotFree(keys)
  {
    var longer := [key] + keys;
    if DotFree(longer) {
      assert longer[0] == key;
      forall i | 0 <= i < |keys| ensures '.' !in keys[i] { assert longer[i + 1] == keys[i]; }
    }
  }

  lemma DotFreeByKey(desired: map<string, State>, actual: map<string, State>)
    requires KeysHaveNoDot(desired, actual)
    ensures AllDotFree(Changes(desired, actual)) <==> EveryKeyDotFree(desired, actual)
  {
    if AllDotFree(Changes(desired, actual)) {
      forall k ensures KeyDotFree(desired, actual, k) {
        forall inner | inner in ChangesAt(k, desired, actual) ensures DotFree(inner.keys) {
          var c := ChangeThroughKey(desired, actual, k, inner);
          DotFreeBelow(k, inner.keys);
        }
      }
    }
    if EveryKeyDotFree(desired, actual) {
      forall c | c in Changes(desired, actual) ensures DotFree(c.keys) {
        ChangeOfFirst(desired, actual, c);
        assert KeyDotFree(desired, actual, c.keys[0]) && ChangesAt(c.keys[0], desired, actual) != [];
        assert DotFree(c.(keys := c.keys[1..]).keys);
        DotFreeBelow(c.keys[0], c.keys[1..]);
        assert c.keys == [c.keys[0]] + c.keys[1..];
      }
    }
  }

  lemma FlatEditsProper(desired: map<string, State>, actual: map<string, State>)
    ensures Proper(EditsBy(Changes(desired, actual), Flat))
  {
    forall i | 0 <= i < |Changes(desired, actual)|
      ensures Flat(Changes(desired, actual)[i].keys) != [] && '.' !in Flat(Changes(desired, actual)[i].keys)[0]
    {
      var c := Changes(desired, actual)[i];
      ChangeOfFirst(desired, actual, c);
      assert Flat(c.keys)[0] == Split(c.keys[0])[0];
    }
  }

  /** Below a named key, the patch gives the desired state exactly when no differing key path has a dot. */
  lemma {:induction false} FlatExactly(desired: map<string, State>, actual: map<string, State>)
    ensures Normalize(PutAll(Dict(actual), EditsBy(Changes(desired, actual), Flat))) == Normalize(Dict(desired))
      <==> AllDotFree(Changes(desired, actual))
    decreases Dict(desired), 1
  {
    FlatEditsProper(desired, actual);
    if KeysHaveNoDot(desired, actual) {
      var edits := EditsBy(Changes(desired, actual), Flat);
      RightByKey(desired, actual, edits);
      DotFreeByKey(desired, actual);
      FlatKeysExactly(desired, actual);
    } else {
      var k :| ChangesAt(k, desired, actual) != [] && '.' in k;
      DottedKeyFails(desired, actual, EditsBy(Changes(desired, actual), Flat), k);
      var c := DottedKeyListed(desired, actual, k);
    }
  }

  lemma {:induction false} FlatKeysExactly(desired: map<string, State>, actual: map<string, State>)
    requires KeysHaveNoDot(desired, actual) && Proper(EditsBy(Changes(desired, actual), Flat))
    ensures EveryKeyRight(desired, actual, EditsBy(Changes(desired, actual), Flat))
      <==> EveryKeyDotFree(desired, actual)
    decreases Dict(desired), 0, 1
  {
    var edits := EditsBy(Changes(desired, actual), Flat);
    forall k ensures KeyIsRight(desired, actual, edits, k) <==> KeyDotFree(desired, actual, k) {
      PutAllAt(actual, edits, k);
      FlatSub(desired.Keys + actual.Keys, desired, actual, k);
      if k !in desired.Keys + actual.Keys { assert ChangesAt(k, desired, actual) == [] && EditsBy([], Flat) == []; }
      KeyFlatExactly(k, desired, actual);
    }
    if EveryKeyRight(desired, actual, edits) {
      forall k ensures KeyDotFree(desired, actual, k) { assert KeyIsRight(desired, actual, edits, k); }
    }
    if EveryKeyDotFree(desired, actual) {
      forall k ensures KeyIsRight(desired, actual, edits, k) { assert KeyDotFree(desired, actual, k); }
    }
  }

  lemma {:induction false} KeyFlatExactly(key: string, desired: map<string, State>, actual: map<string, State>)
    ensures Normalize(PutAll(At(actual, key), EditsBy(ChangesAt(key, desired, actual), Flat))) ==
      Normalize(At(desired, key))
      <==> AllDotFree(ChangesAt(key, desired, actual))
    decreases Dict(desired), 0, 0
  {
    var changes := ChangesAt(key, desired, actual);
    if key in desired && desired[key].Dict? && At(actual, key).Dict? {
      FlatExactly(desired[key].fields, At(actual, key).fields);
    } else if changes != [] {
      var edits := EditsBy(changes, Flat);
      assert changes == [Change([], At(desired, key), At(actual, key))];
      assert edits == [Edit(Flat([]), At(desired, key))] && edits[..0] == [];
    }
  }
}
