/**
  The patch from the root.  A key path that starts with an empty key and goes on leaves that key out of
  its text, so the rows below an empty root key are written elsewhere; the dictionary there never comes right.
 */
module DualLoopRoot {
  import opened Basics
  import opened DualLoop
  import opened DualLoopPatch

  // ---------------------------------------------------------------- measures

  /** What is found by going down through empty keys. */
  function Level(s: State, t: nat): State
    decreases t
  {
    if t == 0 then s else if s.Dict? then Level(At(s.fields, ""), t - 1) else Null
  }

  /** There are n dictionaries above each other. */
  ghost predicate Deep(s: State, n: nat)
  {
    n == 0 || (s.Dict? && exists k :: k in s.fields && s.fields[k] != Null && Deep(s.fields[k], n - 1))
  }

  /** A dictionary n deep below one of its dotted keys. */
  ghost predicate DotDeep(s: State, n: nat)
  {
    s.Dict? && (n == 0 || exists k :: k in s.fields && '.' in k && s.fields[k] != Null && Deep(s.fields[k], n - 1))
  }

  ghost predicate Tall(s: State, t: nat, h: nat) { DotDeep(Level(s, t), h) }

  lemma {:induction false} DeepNormalize(s: State, n: nat)
    ensures Deep(Normalize(s), n) <==> Deep(s, n)
  {
    if n > 0 && s.Dict? {
      var fields := Normalize(s).fields;
      if Deep(s, n) {
        var k :| k in s.fields && s.fields[k] != Null && Deep(s.fields[k], n - 1);
        DeepNormalize(s.fields[k], n - 1);
        assert k in fields && fields[k] != Null && Deep(fields[k], n - 1);
      }
      if Deep(Normalize(s), n) {
        var k :| k in fields && fields[k] != Null && Deep(fields[k], n - 1);
        DeepNormalize(s.fields[k], n - 1);
      }
    }
  }

  lemma DotDeepNormalize(s: State, n: nat)
    ensures DotDeep(Normalize(s), n) <==> DotDeep(s, n)
  {
    if n > 0 && s.Dict? {
      var fields := Normalize(s).fields;
      if DotDeep(s, n) {
        var k :| k in s.fields && '.' in k && s.fields[k] != Null && Deep(s.fields[k], n - 1);
        DeepNormalize(s.fields[k], n - 1);
        assert k in fields && fields[k] != Null && Deep(fields[k], n - 1);
      }
      if DotDeep(Normalize(s), n) {
        var k :| k in fields && '.' in k && fields[k] != Null && Deep(fields[k], n - 1);
        DeepNormalize(s.fields[k], n - 1);
      }
    }
  }

  lemma {:induction false} LevelNormalize(s: State, t: nat)
    ensures Level(Normalize(s), t) == Normalize(Level(s, t))
    decreases t
  {
    if t > 0 && s.Dict? {
      LevelNormalize(At(s.fields, ""), t - 1);
      assert At(Normalize(s).fields, "") == Normalize(At(s.fields, ""));
    }
  }

  /** Equal up to nulls means equally tall. */
  lemma TallNormalize(a: State, b: State, t: nat, h: nat)
    requires Normalize(a) == Normalize(b)
    ensures Tall(a, t, h) <==> Tall(b, t, h)
  {
    LevelNormalize(a, t);
    LevelNormalize(b, t);
    DotDeepNormalize(Level(a, t), h);
    DotDeepNormalize(Level(b, t), h);
  }

  lemma {:induction false} DeepLess(s: State, n: nat, m: nat)
    requires Deep(s, n) && m <= n
    ensures Deep(s, m)
  {
    if m > 0 {
      var k :| k in s.fields && s.fields[k] != Null && Deep(s.fields[k], n - 1);
      DeepLess(s.fields[k], n - 1, m - 1);
    }
  }

  lemma {:induction false} LevelOfNull(t: nat)
    ensures Level(Null, t) == Null
  {
  }

  lemma {:induction false} LevelDeep(s: State, t: nat, n: nat)
    requires Level(s, t) != Null && Deep(Level(s, t), n)
    ensures Deep(s, n + t)
    decreases t
  {
    if t > 0 {
      LevelOfNull(t - 1);
      LevelDeep(At(s.fields, ""), t - 1, n);
      assert "" in s.fields && s.fields[""] != Null && Deep(s.fields[""], n + t - 1);
    }
  }

  lemma DotDeepIsDeep(s: State, n: nat)
    requires DotDeep(s, n)
    ensures Deep(s, n)
  {
    if n > 0 {
      var k :| k in s.fields && '.' in k && s.fields[k] != Null && Deep(s.fields[k], n - 1);
    }
  }

  lemma TallIsDeep(s: State, t: nat, h: nat)
    requires Tall(s, t, h)
    ensures Deep(s, h) && Deep(s, t)
  {
    DotDeepIsDeep(Level(s, t), h);
    LevelDeep(s, t, h);
    DeepLess(s, h + t, h);
    DeepLess(s, h + t, t);
  }

  lemma {:induction false} DeepBound(s: State) returns (n: nat)
    ensures !Deep(s, n)
    decreases s, 1
  {
    n := 1;
    if s.Dict? {
      n := DeepBoundOver(s, s.fields.Keys);
      forall k | k in s.fields ensures !Deep(s.fields[k], n) { }
      n := n + 1;
    }
  }

  lemma {:induction false} DeepBoundOver(s: State, keys: set<string>) returns (n: nat)
    requires s.Dict? && keys <= s.fields.Keys
    ensures forall k :: k in keys ==> !Deep(s.fields[k], n)
    decreases s, 0, keys
  {
    n := 0;
    if keys != {} {
      var k :| k in keys;
      var rest := DeepBoundOver(s, keys - {k});
      var here := DeepBound(s.fields[k]);
      n := Max(rest, here);
      forall other | other in keys ensures !Deep(s.fields[other], n) {
        if Deep(s.fields[other], n) { DeepLess(s.fields[other], n, if other == k then here else rest); }
      }
    }
  }

  // ---------------------------------------------------------------- one write

  /** A null, or a value less than h deep. */
  ghost predicate Short(v: State, h: nat) { v.Null? || !Deep(v, h) }

  lemma ShortIsNotTall(v: State, t: nat, h: nat)
    requires Short(v, h)
    ensures !Tall(v, t, h)
  {
    if v.Null? { LevelOfNull(t); } else if Tall(v, t, h) { TallIsDeep(v, t, h); }
  }

  /** Writing something short along dot-free components makes no level tall. */
  lemma {:induction false} PutKeepsLow(s: State, path: seq<string>, v: State, t: nat, h: nat)
    requires DotFree(path) && Short(v, h) && !Tall(s, t, h)
    ensures !Tall(Put(s, path, v), t, h)
    decreases |path|
  {
    if path == [] {
      ShortIsNotTall(v, t, h);
    } else if s.Dict? || !v.Null? {
      var fields := if s.Dict? then s.fields else map[];
      assert DotFree(path[1..]);
      if t == 0 {
        assert '.' !in path[0];
      } else if path[0] == "" {
        if !s.Dict? { LevelOfNull(t - 1); }
        PutKeepsLow(At(fields, ""), path[1..], v, t - 1, h);
      } else if !s.Dict? {
        LevelOfNull(t - 1);
      }
    }
  }

  ghost predicate Keeps(s: State, t: nat, key: string, was: State)
  {
    Level(s, t).Dict? && At(Level(s, t).fields, key) == was
  }

  /** A dotted key stays as it is, or its level is overwritten by something short. */
  lemma {:induction false} PutKeepsDotted(
      s: State, path: seq<string>, v: State, t: nat, h: nat, key: string, was: State)
    requires DotFree(path) && Short(v, h) && '.' in key && Keeps(s, t, key, was)
    ensures Keeps(Put(s, path, v), t, key, was) || !Tall(Put(s, path, v), t, h)
    decreases |path|
  {
    if path == [] {
      ShortIsNotTall(v, t, h);
    } else {
      assert '.' !in path[0] && DotFree(path[1..]);
      if t > 0 && path[0] == "" { PutKeepsDotted(At(s.fields, ""), path[1..], v, t - 1, h, key, was); }
    }
  }

  /** Overwriting with a deeper level of a state whose last tall level is g. */
  lemma {:induction false} LevelOfLevel(s: State, m: nat, t: nat)
    ensures Level(Level(s, m), t) == Level(s, m + t)
    decreases m
  {
    if m > 0 {
      if s.Dict? { LevelOfLevel(At(s.fields, ""), m - 1, t); } else { LevelOfNull(t); }
    }
  }

  // ---------------------------------------------------------------- all writes

  /** An edit that writes something short, or that replaces the whole by one of its own deeper levels. */
  ghost predicate Gentle(e: Edit, h: nat) { DotFree(e.path) && Short(e.value, h) }

  ghost predicate Wipes(e: Edit, desired: State)
  {
    e.path == [] && exists m: nat :: m >= 1 && e.value == Level(desired, m)
  }

  lemma {:induction false} LowAfterWipe(s: State, edits: seq<Edit>, desired: State, g: nat, h: nat)
    requires forall i :: 0 <= i < |edits| ==> Gentle(edits[i], h) || Wipes(edits[i], desired)
    requires forall t: nat :: t > g ==> !Tall(desired, t, h)
    requires exists i :: 0 <= i < |edits| && Wipes(edits[i], desired)
    ensures !Tall(PutAll(s, edits), g, h)
  {
    var front, last := edits[..|edits| - 1], edits[|edits| - 1];
    if Wipes(last, desired) {
      var m: nat :| m >= 1 && last.value == Level(desired, m);
      LevelOfLevel(desired, m, g);
      assert !Tall(desired, m + g, h);
      assert PutAll(s, edits) == last.value;
    } else {
      var i :| 0 <= i < |edits| && Wipes(edits[i], desired);
      assert front[i] == edits[i];
      LowAfterWipe(s, front, desired, g, h);
      PutKeepsLow(PutAll(s, front), last.path, last.value, g, h);
    }
  }

  lemma {:induction false} KeptOrLow(s: State, edits: seq<Edit>, t: nat, h: nat, key: string, was: State)
    requires forall i :: 0 <= i < |edits| ==> Gentle(edits[i], h)
    requires '.' in key && Keeps(s, t, key, was)
    ensures Keeps(PutAll(s, edits), t, key, was) || !Tall(PutAll(s, edits), t, h)
  {
    if edits != [] {
      var front, last := edits[..|edits| - 1], edits[|edits| - 1];
      KeptOrLow(s, front, t, h, key, was);
      if Keeps(PutAll(s, front), t, key, was) {
        PutKeepsDotted(PutAll(s, front), last.path, last.value, t, h, key, was);
      } else {
        PutKeepsLow(PutAll(s, front), last.path, last.value, t, h);
      }
    }
  }

  // ---------------------------------------------------------------- the changes below an empty root key

  /** The empty keys a key path starts with. */
  function Lead(keys: seq<string>): (n: nat)
    ensures n <= |keys| && forall i :: 0 <= i < n ==> keys[i] == ""
    ensures n < |keys| ==> keys[n] != ""
  {
    if keys != [] && keys[0] == "" then 1 + Lead(keys[1..]) else 0
  }

  ghost predicate DottedLead(c: Change) { Lead(c.keys) < |c.keys| && '.' in c.keys[Lead(c.keys)] }

  /** What lies at the end of a change lies inside the value of its first key. */
  lemma {:induction false} DesiredInside(
      desired: map<string, State>, actual: map<string, State>, key: string, c: Change, n: nat)
    requires c in ChangesAt(key, desired, actual) && c.desired != Null && Deep(c.desired, n)
    ensures At(desired, key) != Null && Deep(At(desired, key), n)
    decreases |c.keys|
  {
    if key in desired && desired[key].Dict? && At(actual, key).Dict? {
      var wanted, observed := desired[key].fields, At(actual, key).fields;
      ChangeOfFirst(wanted, observed, c);
      var inner := c.(keys := c.keys[1..]);
      DesiredInside(wanted, observed, c.keys[0], inner, n);
      assert c.keys[0] in wanted && wanted[c.keys[0]] != Null && Deep(wanted[c.keys[0]], n);
      assert Deep(desired[key], n + 1);
      DeepLess(desired[key], n + 1, n);
    }
  }

  ghost predicate LeadsTo(desired: map<string, State>, actual: map<string, State>, c: Change)
  {
    var p := Lead(c.keys);
    if p == |c.keys| then c.desired == Level(Dict(desired), p)
    else
      && Level(Dict(desired), p).Dict? && Level(Dict(actual), p).Dict?
      && Normalize(At(Level(Dict(desired), p).fields, c.keys[p])) !=
           Normalize(At(Level(Dict(actual), p).fields, c.keys[p]))
      && (forall n: nat :: c.desired != Null && Deep(c.desired, n) && '.' in c.keys[p] ==>
           DotDeep(Level(Dict(desired), p), n + 1))
  }

  lemma {:induction false} ChangeLeads(desired: map<string, State>, actual: map<string, State>, c: Change)
    requires c in Changes(desired, actual)
    ensures LeadsTo(desired, actual, c)
    decreases |c.keys|
  {
    ChangeOfFirst(desired, actual, c);
    var key, inner := c.keys[0], c.(keys := c.keys[1..]);
    ChangedKeyDiffers(key, desired, actual);
    if key != "" {
      forall n: nat | c.desired != Null && Deep(c.desired, n) && '.' in key ensures DotDeep(Dict(desired), n + 1) {
        DesiredInside(desired, actual, key, inner, n);
        assert key in desired && desired[key] != Null && Deep(desired[key], n);
      }
    } else if key in desired && desired[key].Dict? && At(actual, key).Dict? {
      ChangeLeads(desired[key].fields, At(actual, key).fields, inner);
      LeadShift(desired, actual, c, inner);
    } else {
      assert inner.keys == [] && Level(Dict(desired), 1) == Level(At(desired, ""), 0);
    }
  }

  /** One empty key further in, everything moves one level up. */
  lemma LeadShift(desired: map<string, State>, actual: map<string, State>, c: Change, inner: Change)
    requires c.keys != [] && c.keys[0] == "" && inner == c.(keys := c.keys[1..])
    requires At(desired, "").Dict? && At(actual, "").Dict? &&
      LeadsTo(At(desired, "").fields, At(actual, "").fields, inner)
    ensures LeadsTo(desired, actual, c)
  {
    var p := Lead(inner.keys);
    assert Lead(c.keys) == p + 1;
    assert Level(Dict(desired), p + 1) == Level(At(desired, ""), p) &&
      Level(Dict(actual), p + 1) == Level(At(actual, ""), p);
    if p < |inner.keys| { assert c.keys[p + 1] == inner.keys[p]; }
  }

  /** The tallest level with a dotted difference. */
  ghost predicate Reaches(changes: seq<Change>, desired: State, n: nat)
  {
    exists c :: c in changes && DottedLead(c) && DotDeep(Level(desired, Lead(c.keys)), n)
  }

  lemma {:induction false} LargestReach(changes: seq<Change>, desired: State, n: nat) returns (h: nat)
    requires Reaches(changes, desired, 0) && !Reaches(changes, desired, n)
    ensures Reaches(changes, desired, h) && !Reaches(changes, desired, h + 1)
  {
    if Reaches(changes, desired, n - 1) { h := n - 1; } else { h := LargestReach(changes, desired, n - 1); }
  }

  lemma {:induction false} LastTall(s: State, h: nat, n: nat) returns (g: nat)
    requires exists t: nat :: t < n && Tall(s, t, h)
    requires forall t: nat :: t >= n ==> !Tall(s, t, h)
    ensures Tall(s, g, h) && forall t: nat :: t > g ==> !Tall(s, t, h)
  {
    if Tall(s, n - 1, h) { g := n - 1; } else { g := LastTall(s, h, n - 1); }
  }

  lemma DeepChangeReaches(desired: map<string, State>, actual: map<string, State>, c: Change, n: nat)
    requires c in Changes(desired, actual) && DottedLead(c)
    ensures !Short(c.desired, n) ==> Reaches(Changes(desired, actual), Dict(desired), n + 1)
  {
    ChangeLeads(desired, actual, c);
  }

  /** How deep the values of dotted differences go: none of them reaches below h. */
  lemma DottedHeight(desired: map<string, State>, actual: map<string, State>) returns (h: nat)
    ensures forall c :: c in Changes(desired, actual) && DottedLead(c) ==> Short(c.desired, h)
    ensures (exists c :: c in Changes(desired, actual) && DottedLead(c)) ==>
      Reaches(Changes(desired, actual), Dict(desired), h)
    ensures (forall c :: c in Changes(desired, actual) ==> !DottedLead(c)) ==> h == 0
  {
    var changes := Changes(desired, actual);
    if c :| c in changes && DottedLead(c) {
      ChangeLeads(desired, actual, c);
      assert Reaches(changes, Dict(desired), 0);
      var n := DeepBound(Dict(desired));
      if Reaches(changes, Dict(desired), n) {
        var d :| d in changes && DottedLead(d) && DotDeep(Level(Dict(desired), Lead(d.keys)), n);
        TallIsDeep(Dict(desired), Lead(d.keys), n);
      }
      h := LargestReach(changes, Dict(desired), n);
      forall d | d in changes && DottedLead(d) ensures Short(d.desired, h) {
        DeepChangeReaches(desired, actual, d, h);
      }
    } else {
      h := 0;
    }
  }

  // ---------------------------------------------------------------- where the rows below an empty root key go

  /** The edits that come back to the empty root key from the changes below it. */
  ghost predicate EditFrom(e: Edit, c: Change)
  {
    c.keys != [] && RootPath(c.keys)[0] == "" && e == Edit(RootPath(c.keys)[1..], c.desired)
  }

  lemma {:induction false} AllEmptyPath(keys: seq<string>)
    requires keys != [] && Lead(keys) == |keys|
    ensures RootPath(keys) == [""]
  {
    RootPathUnnamed(keys);
    if |keys| > 1 { AllEmptyPath(keys[1..]); }
  }

  /** The path of a change below empty keys starts with its first named key. */
  lemma {:induction false} NamedPath(keys: seq<string>)
    requires Lead(keys) < |keys|
    ensures RootPath(keys)[0] == Split(keys[Lead(keys)])[0]
  {
    if Lead(keys) == 0 {
      RootPathNamed(keys);
    } else {
      RootPathUnnamed(keys);
      NamedPath(keys[1..]);
      assert keys[1..][Lead(keys[1..])] == keys[Lead(keys)];
    }
  }

  lemma ReturningEdit(desired: map<string, State>, actual: map<string, State>, c: Change, e: Edit, h: nat)
    requires c in Changes(desired, actual) && EditFrom(e, c)
    requires DottedLead(c) ==> Short(c.desired, h)
    ensures Lead(c.keys) == |c.keys| ==> Wipes(e, Dict(desired))
    ensures Lead(c.keys) < |c.keys| ==> DottedLead(c) && Gentle(e, h)
  {
    if Lead(c.keys) == |c.keys| {
      AllEmptyPath(c.keys);
      ChangeLeads(desired, actual, c);
    } else {
      NamedPath(c.keys);
      if '.' !in c.keys[Lead(c.keys)] { SplitPlain(c.keys[Lead(c.keys)]); }
    }
  }

  ghost predicate AllReturning(edits: seq<Edit>, changes: seq<Change>)
  {
    forall e :: e in edits ==> exists c :: c in changes && EditFrom(e, c)
  }

  /** Whatever comes back to it, a differing dictionary under the empty root key stays wrong. */
  lemma NeverComesRight(desired: map<string, State>, actual: map<string, State>, edits: seq<Edit>)
    requires Changes(desired, actual) != [] && AllReturning(edits, Changes(desired, actual))
    requires forall c, e :: c in Changes(desired, actual) && EditFrom(e, c) ==> e in edits
    ensures Normalize(PutAll(Dict(actual), edits)) != Normalize(Dict(desired))
  {
    var changes := Changes(desired, actual);
    var h := DottedHeight(desired, actual);
    forall i | 0 <= i < |edits| ensures Gentle(edits[i], h) || Wipes(edits[i], Dict(desired)) {
      assert edits[i] in edits;
      var c :| c in changes && EditFrom(edits[i], c);
      ReturningEdit(desired, actual, c, edits[i], h);
    }
    if c :| c in changes && Lead(c.keys) == |c.keys| {
      WipedNeverRight(desired, actual, edits, c, h);
    } else {
      forall i | 0 <= i < |edits| ensures Gentle(edits[i], h) {
        assert edits[i] in edits;
        var c :| c in changes && EditFrom(edits[i], c);
        ReturningEdit(desired, actual, c, edits[i], h);
      }
      if exists c :: c in changes && DottedLead(c) {
        DottedNeverRight(desired, actual, edits, h);
      } else {
        NothingReturns(desired, actual, edits, h);
      }
    }
  }

  /** The last level that is as tall as the dotted differences. */
  lemma LastTallOf(desired: map<string, State>, actual: map<string, State>, h: nat) returns (g: nat)
    requires h == 0 || Reaches(Changes(desired, actual), Dict(desired), h)
    ensures Tall(Dict(desired), g, h) && forall t: nat :: t > g ==> !Tall(Dict(desired), t, h)
  {
    var n := DeepBound(Dict(desired));
    forall t: nat | t >= n ensures !Tall(Dict(desired), t, h) {
      if Tall(Dict(desired), t, h) { TallIsDeep(Dict(desired), t, h); DeepLess(Dict(desired), t, n); }
    }
    var first: nat := 0;
    if h > 0 {
      var d :| d in Changes(desired, actual) && DottedLead(d) && DotDeep(Level(Dict(desired), Lead(d.keys)), h);
      first := Lead(d.keys);
    }
    assert Tall(Dict(desired), first, h);
    assert first < n;
    g := LastTall(Dict(desired), h, n);
  }

  lemma WipedNeverRight(desired: map<string, State>, actual: map<string, State>, edits: seq<Edit>, c: Change, h: nat)
    requires c in Changes(desired, actual) && Lead(c.keys) == |c.keys|
    requires forall i :: 0 <= i < |edits| ==> Gentle(edits[i], h) || Wipes(edits[i], Dict(desired))
    requires forall c, e :: c in Changes(desired, actual) && EditFrom(e, c) ==> e in edits
    requires h == 0 || Reaches(Changes(desired, actual), Dict(desired), h)
    ensures Normalize(PutAll(Dict(actual), edits)) != Normalize(Dict(desired))
  {
    var changes := Changes(desired, actual);
    ChangeOfFirst(desired, actual, c);
    AllEmptyPath(c.keys);
    var e := Edit(RootPath(c.keys)[1..], c.desired);
    assert EditFrom(e, c);
    ChangeLeads(desired, actual, c);
    assert e in edits && Wipes(e, Dict(desired));
    var g := LastTallOf(desired, actual, h);
    LowAfterWipe(Dict(actual), edits, Dict(desired), g, h);
    if Normalize(PutAll(Dict(actual), edits)) == Normalize(Dict(desired)) {
      TallNormalize(PutAll(Dict(actual), edits), Dict(desired), g, h);
    }
  }

  lemma DottedNeverRight(desired: map<string, State>, actual: map<string, State>, edits: seq<Edit>, h: nat)
    requires Reaches(Changes(desired, actual), Dict(desired), h)
    requires forall i :: 0 <= i < |edits| ==> Gentle(edits[i], h)
    ensures Normalize(PutAll(Dict(actual), edits)) != Normalize(Dict(desired))
  {
    var d :| d in Changes(desired, actual) && DottedLead(d) && DotDeep(Level(Dict(desired), Lead(d.keys)), h);
    ChangeLeads(desired, actual, d);
    var p, key := Lead(d.keys), d.keys[Lead(d.keys)];
    var was := At(Level(Dict(actual), p).fields, key);
    KeptOrLow(Dict(actual), edits, p, h, key, was);
    var result := PutAll(Dict(actual), edits);
    if Normalize(result) == Normalize(Dict(desired)) {
      TallNormalize(result, Dict(desired), p, h);
      LevelNormalize(result, p);
      LevelNormalize(Dict(desired), p);
      NormalizeByKeys(Level(result, p).fields, Level(Dict(desired), p).fields);
    }
  }

  lemma NothingReturns(desired: map<string, State>, actual: map<string, State>, edits: seq<Edit>, h: nat)
    requires Changes(desired, actual) != [] && AllReturning(edits, Changes(desired, actual))
    requires forall c :: c in Changes(desired, actual) ==> !DottedLead(c) && Lead(c.keys) < |c.keys|
    ensures Normalize(PutAll(Dict(actual), edits)) != Normalize(Dict(desired))
  {
    if edits != [] {
      assert edits[0] in edits;
      var c :| c in Changes(desired, actual) && EditFrom(edits[0], c);
      ReturningEdit(desired, actual, c, edits[0], h);
    }
    RowsAreChanges(desired, actual, "");
    ConvergedMeansAgreement(desired, actual, "");
  }

  // ---------------------------------------------------------------- the theorem

  lemma RootEditsProper(changes: seq<Change>)
    ensures Proper(EditsBy(changes, RootPath))
  {
    forall i | 0 <= i < |changes| ensures RootPath(changes[i].keys) != [] && '.' !in RootPath(changes[i].keys)[0] {
      assert RootPath(changes[i].keys) == Split(PathFrom("", changes[i].keys));
    }
  }

  /** The edits through the empty root key are those that come back to it from below. */
  lemma EmptyRootFails(desired: map<string, State>, actual: map<string, State>)
    requires KeysHaveNoDot(desired, actual)
    requires "" in desired && desired[""].Dict? && At(actual, "").Dict? && ChangesAt("", desired, actual) != []
    ensures Normalize(PutAll(Dict(actual), EditsBy(Changes(desired, actual), RootPath))) != Normalize(Dict(desired))
  {
    var changes, wanted, observed := Changes(desired, actual), desired[""].fields, At(actual, "").fields;
    var edits := EditsBy(changes, RootPath);
    var back := Sub(edits, "");
    forall e | e in back ensures exists c :: c in Changes(wanted, observed) && EditFrom(e, c) {
      var c := SubMember(changes, RootPath, "", e);
      BackFromBelow(desired, actual, c, e);
    }
    forall c, e | c in Changes(wanted, observed) && EditFrom(e, c) ensures e in back {
      var whole := ChangeThroughKey(desired, actual, "", c);
      RootPathUnnamed(whole.keys);
      assert whole.keys[1..] == c.keys;
      SubHas(changes, RootPath, "", whole);
    }
    NeverComesRight(wanted, observed, back);
    RootEditsProper(changes);
    PutAllAt(actual, edits, "");
    NormalizeByKeys(PutAll(Dict(actual), edits).fields, desired);
  }

  lemma BackFromBelow(desired: map<string, State>, actual: map<string, State>, c: Change, e: Edit)
    requires KeysHaveNoDot(desired, actual) && "" in desired && desired[""].Dict? && At(actual, "").Dict?
    requires c in Changes(desired, actual) && RootPath(c.keys)[0] == "" && e == Edit(RootPath(c.keys)[1..], c.desired)
    ensures exists inner :: inner in Changes(desired[""].fields, At(actual, "").fields) && EditFrom(e, inner)
  {
    ChangeOfFirst(desired, actual, c);
    if c.keys[0] != "" {
      RootPathNamed(c.keys);
      SplitPlain(c.keys[0]);
    } else {
      var inner := c.(keys := c.keys[1..]);
      ChangeOfFirst(desired[""].fields, At(actual, "").fields, inner);
      RootPathUnnamed(c.keys);
      assert EditFrom(e, inner);
    }
  }

  ghost predicate EmptyRootDiffers(desired: map<string, State>, actual: map<string, State>)
  {
    "" in desired && desired[""].Dict? && At(actual, "").Dict? && ChangesAt("", desired, actual) != []
  }

  lemma FlatFromRoot(desired: map<string, State>, actual: map<string, State>)
    requires !EmptyRootDiffers(desired, actual)
    ensures EditsBy(Changes(desired, actual), RootPath) == EditsBy(Changes(desired, actual), Flat)
    ensures AllAddressable(desired, actual) <==> AllDotFree(Changes(desired, actual))
  {
    var changes := Changes(desired, actual);
    forall c | c in changes ensures RootPath(c.keys) == Flat(c.keys) && (Addressable(c.keys) <==> DotFree(c.keys)) {
      ChangeOfFirst(desired, actual, c);
      if c.keys[0] != "" {
        RootPathNamed(c.keys);
      } else {
        assert c.keys[1..] == [];
        RootPathUnnamed(c.keys);
      }
    }
    forall i | 0 <= i < |changes|
      ensures RootPath(changes[i].keys) == Flat(changes[i].keys)
    {
      assert changes[i] in changes;
    }
  }

  /**
    Writing each row's desired value at its path turns the actual state into the desired one if and only
    if every differing key path is free of dots and does not go on below an empty root key.
   */
  lemma DiffIsPatchExactly(desired: map<string, State>, actual: map<string, State>)
    ensures Normalize(Patch(actual, Differences(desired, actual, ""))) == Normalize(Dict(desired)) <==>
      AllAddressable(desired, actual)
  {
    PatchIsRootEdits(desired, actual);
    if !KeysHaveNoDot(desired, actual) {
      var k :| ChangesAt(k, desired, actual) != [] && '.' in k;
      RootEditsProper(Changes(desired, actual));
      DottedKeyFails(desired, actual, EditsBy(Changes(desired, actual), RootPath), k);
      var c := DottedKeyListed(desired, actual, k);
      assert !Addressable(c.keys);
    } else if EmptyRootDiffers(desired, actual) {
      EmptyRootFails(desired, actual);
      var inner := ChangesAt("", desired, actual)[0];
      ChangeOfFirst(desired[""].fields, At(actual, "").fields, inner);
      var c := ChangeThroughKey(desired, actual, "", inner);
      assert !Addressable(c.keys);
    } else {
      FlatFromRoot(desired, actual);
      FlatExactly(desired, actual);
    }
  }

  /** A dotted key: the row for "a.b" is written below "a" instead. */
  lemma DottedKeyBreaksThePatch(key: string, value: State)
    requires '.' in key && value != Null
    ensures var desired := map[key := value];
      Normalize(Patch(map[], Differences(desired, map[], ""))) != Normalize(Dict(desired))
  {
    var desired: map<string, State> := map[key := value];
    assert ChangesAt(key, desired, map[]) != [];
    var c := DottedKeyListed(desired, map[], key);
    DiffIsPatchExactly(desired, map[]);
  }

  // ---------------------------------------------------------------- scope and identity

  /** The row's path is this field or lies below it. */
  predicate LeadsInto(row: Difference, name: string) { row.path == name || name + "." <= row.path }

  /** The first named key is this field, or continues it after a dot. */
  predicate NamedInto(keys: seq<string>, name: string)
  {
    var p := Lead(keys);
    p < |keys| && (keys[p] == name || name + "." <= keys[p])
  }

  /** A path starts with a component exactly when it is that component, or continues it after a dot. */
  lemma {:induction false} SplitHead(path: string, name: string)
    requires '.' !in name
    ensures Split(path)[0] == name <==> path == name || name + "." <= path
  {
    if path != "" && path[0] != '.' {
      var head := Split(path[1..])[0];
      assert Split(path)[0] == [path[0]] + head;
      if name != "" {
        SplitHead(path[1..], name[1..]);
        assert name == [name[0]] + name[1..] && path == [path[0]] + path[1..];
        assert (name + ".")[1..] == name[1..] + ".";
        assert ([path[0]] + head)[1..] == head;
      }
    }
  }

  /** A change leads into a field exactly when its first named key does, whatever stands before it. */
  lemma RowLeadsInto(c: Change, name: string)
    requires c.keys != [] && '.' !in name && name != ""
    ensures LeadsInto(Rows([c], "")[0], name) <==> NamedInto(c.keys, name)
    ensures LeadsInto(Rows([c], "")[0], name) <==> RootPath(c.keys)[0] == name
  {
    SplitHead(PathFrom("", c.keys), name);
    if Lead(c.keys) == |c.keys| {
      AllEmptyPath(c.keys);
    } else {
      NamedPath(c.keys);
      SplitHead(c.keys[Lead(c.keys)], name);
    }
  }

  lemma {:induction false} NothingThrough(changes: seq<Change>, name: string)
    requires forall c :: c in changes ==> RootPath(c.keys)[0] != name
    ensures Sub(EditsBy(changes, RootPath), name) == []
  {
    if changes != [] {
      var front, last := changes[..|changes| - 1], changes[|changes| - 1];
      assert EditsBy(changes, RootPath)[..|changes| - 1] == EditsBy(front, RootPath);
      NothingThrough(front, name);
      assert last in changes;
    }
  }

  /** What the patch leaves at one key: the writes that go through it, on what was there. */
  lemma PatchAt(desired: map<string, State>, actual: map<string, State>, name: string)
    ensures var patched := Patch(actual, Differences(desired, actual, ""));
      && patched.Dict?
      && At(patched.fields, name) == PutAll(At(actual, name), Sub(EditsBy(Changes(desired, actual), RootPath), name))
  {
    PatchIsRootEdits(desired, actual);
    RootEditsProper(Changes(desired, actual));
    PutAllAt(actual, EditsBy(Changes(desired, actual), RootPath), name);
  }

  ghost predicate FieldAlone(desired: map<string, State>, actual: map<string, State>, name: string)
  {
    var rows, changes := Differences(desired, actual, ""), Changes(desired, actual);
    && |rows| == |changes|
    && (forall i :: 0 <= i < |rows| ==> (LeadsInto(rows[i], name) <==> NamedInto(changes[i].keys, name)))
    && (AllAddressable(desired, actual) ==> forall i :: 0 <= i < |rows| ==> !LeadsInto(rows[i], name))
    && ((forall i :: 0 <= i < |rows| ==> !LeadsInto(rows[i], name)) ==>
         var patched := Patch(actual, rows);
         patched.Dict? && At(patched.fields, name) == At(desired, name))
  }

  lemma EqualFieldAlone(desired: map<string, State>, actual: map<string, State>, name: string)
    requires '.' !in name && name != "" && At(desired, name).Dict? && At(actual, name) == At(desired, name)
    ensures FieldAlone(desired, actual, name)
  {
    var rows, changes := Differences(desired, actual, ""), Changes(desired, actual);
    RowsAreChanges(desired, actual, "");
    ChangedKeyDiffers(name, desired, actual);
    forall i | 0 <= i < |rows|
      ensures LeadsInto(rows[i], name) <==> NamedInto(changes[i].keys, name)
      ensures LeadsInto(rows[i], name) <==> RootPath(changes[i].keys)[0] == name
      ensures AllAddressable(desired, actual) ==> !LeadsInto(rows[i], name)
    {
      var c := changes[i];
      assert c in changes;
      ChangeOfFirst(desired, actual, c);
      RowLeadsInto(c, name);
      if AllAddressable(desired, actual) { PathLeadsHomeExactly(c.keys); }
    }
    if forall i :: 0 <= i < |rows| ==> !LeadsInto(rows[i], name) {
      NothingThrough(changes, name);
      PatchAt(desired, actual, name);
    }
  }

  /**
    An accepted receipt is converged exactly on agreement.  A row leads into scope or identity exactly when
    its first named key does: never where the keys are addressable, and then the patch leaves both as desired.
   */
  lemma ReconcileReceipt(id: string, desired: map<string, State>, actual: map<string, State>)
    requires Reconcile(id, desired, actual).Ok?
    ensures var receipt := Reconcile(id, desired, actual).value;
      && (receipt.converged <==> Normalize(Dict(desired)) == Normalize(Dict(actual)))
      && receipt.differences == Rows(Changes(desired, actual), "")
    ensures FieldAlone(desired, actual, "scope") && FieldAlone(desired, actual, "identity")
  {
    ConvergedReceipt(id, desired, actual);
    RowsAreChanges(desired, actual, "");
    EqualFieldAlone(desired, actual, "scope");
    EqualFieldAlone(desired, actual, "identity");
  }

  lemma {:induction false} OnlyKey(
      keys: set<string>, desired: map<string, State>, actual: map<string, State>, key: string)
    requires forall k :: k in keys && k != key ==> ChangesAt(k, desired, actual) == []
    ensures ChangesOver(keys, desired, actual) ==
      if key in keys then Below(key, ChangesAt(key, desired, actual)) else []
    decreases |keys|
  {
    if keys != {} {
      var least := Least(keys);
      OnlyKey(keys - {least}, desired, actual, key);
    }
  }

  const BARE: map<string, State> := map["scope" := Dict(map[]), "identity" := Dict(map[])]

  lemma ScopeRow(t: string, value: State)
    requires value != Null
    ensures Differences(BARE["scope." + t := value], BARE, "") == [Difference("scope." + t, value, Null)]
  {
    var key, desired := "scope." + t, BARE["scope." + t := value];
    assert key[5] == '.' && key !in BARE;
    forall k | k != key ensures ChangesAt(k, desired, BARE) == [] { ChangedKeyDiffers(k, desired, BARE); }
    OnlyKey(desired.Keys + BARE.Keys, desired, BARE, key);
    RowsAreChanges(desired, BARE, "");
    assert PathFrom("", [key]) == key;
  }

  lemma PutIntoScope(t: string, value: State)
    requires value != Null
    ensures PutAll(Dict(BARE), [Edit(["scope", t], value)]) == Dict(BARE["scope" := Dict(map[t := value])])
  {
    var path := ["scope", t];
    assert path[1..] == [t] && [t][1..] == [] && [Edit(path, value)][..0] == [];
    assert At(BARE, "scope") == Dict(map[]);
    assert Put(Dict(map[]), [t], value) == Dict(map[t := value]);
    assert Put(Dict(BARE), path, value) == Dict(BARE["scope" := Put(At(BARE, "scope"), path[1..], value)]);
  }

  lemma PatchScopeRow(t: string, value: State)
    requires '.' !in t && value != Null
    ensures Patch(BARE, [Difference("scope." + t, value, Null)]) == Dict(BARE["scope" := Dict(map[t := value])])
  {
    SplitJoined("scope", t);
    SplitPlain("scope");
    SplitPlain(t);
    assert "scope" + "." == "scope." && Split("scope." + t) == ["scope"] + [t] == ["scope", t];
    PutIntoScope(t, value);
    var rows := [Difference("scope." + t, value, Null)];
    var made := seq(|rows|, i requires 0 <= i < |rows| => Edit(Split(rows[i].path), rows[i].desired));
    assert |made| == 1 && made[0] == Edit(["scope", t], value);
    assert made == [Edit(["scope", t], value)];
  }

  /** A reconciliation is accepted although its only row writes into scope. */
  lemma DottedKeyReachesScope(id: string, t: string, value: State)
    requires id != "" && '.' !in t && value != Null
    ensures var desired := BARE["scope." + t := value]; var rows := Differences(desired, BARE, "");
      && Reconcile(id, desired, BARE).Ok?
      && |rows| == 1 && LeadsInto(rows[0], "scope")
      && Patch(BARE, rows) == Dict(BARE["scope" := Dict(map[t := value])])
  {
    ScopeRow(t, value);
    PatchScopeRow(t, value);
    assert ("scope." + t)[5] == '.';
  }
}
