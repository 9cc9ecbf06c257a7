/**
  The desired/actual reconciliation of dual_loop.py.  State comparison there ignores key order and
  sorts keys before diffing, so a state is a map.
 */
module DualLoop {
  import opened Basics
  import opened Ordering

  datatype State =
    | Null
    | Bool(b: bool)
    | Num(n: int)
    | Text(s: string)
    | Items(items: seq<State>)
    | Dict(fields: map<string, State>)

  datatype Difference = Difference(path: string, desired: State, actual: State)

  /** `dict.get`: an absent key reads as null. */
  function At(fields: map<string, State>, key: string): State { GetOr(fields, key, Null) }

  function Join(prefix: string, key: string): string
  {
    if prefix != "" then prefix + "." + key else key
  }

  // ---------------------------------------------------------------- sorted keys

  predicate IsLeast(key: string, keys: set<string>)
  {
    key in keys && forall other :: other in keys ==> other == key || Less(key, other)
  }

  lemma {:induction false} LeastExists(keys: set<string>)
    requires keys != {}
    ensures exists key :: IsLeast(key, keys)
    decreases keys
  {
    var k :| k in keys;
    if keys == {k} {
      assert IsLeast(k, keys);
    } else {
      var rest := keys - {k};
      assert rest != {};
      LeastExists(rest);
      var m :| IsLeast(m, rest);
      LessTotal(k, m);
      if Less(k, m) {
        forall other | other in keys ensures other == k || Less(k, other) {
          if other != k && other != m { LessTransitive(k, m, other); }
        }
        assert IsLeast(k, keys);
      } else {
        assert IsLeast(m, keys);
      }
    }
  }

  lemma LeastIsUnique(a: string, b: string, keys: set<string>)
    requires IsLeast(a, keys) && IsLeast(b, keys)
    ensures a == b
  {
    LessTotal(a, b);
  }

  function Least(keys: set<string>): (key: string)
    requires keys != {}
    ensures IsLeast(key, keys)
  {
    LeastExists(keys);
    assert forall a, b :: IsLeast(a, keys) && IsLeast(b, keys) ==> a == b by {
      forall a, b | IsLeast(a, keys) && IsLeast(b, keys) ensures a == b { LeastIsUnique(a, b, keys); }
    }
    var key :| IsLeast(key, keys);
    key
  }

  // ---------------------------------------------------------------- the diff

  function Differences(desired: map<string, State>, actual: map<string, State>, prefix: string): seq<Difference>
    decreases Dict(desired), 1
  {
    DifferencesOver(desired.Keys + actual.Keys, desired, actual, prefix)
  }

  function DifferencesOver(
      keys: set<string>, desired: map<string, State>, actual: map<string, State>, prefix: string): seq<Difference>
    decreases Dict(desired), 0, |keys| + 1
  {
    if keys == {} then []
    else
      var key := Least(keys);
      KeyDifferences(key, desired, actual, prefix) + DifferencesOver(keys - {key}, desired, actual, prefix)
  }

  function KeyDifferences(
      key: string, desired: map<string, State>, actual: map<string, State>, prefix: string): seq<Difference>
    decreases Dict(desired), 0, 0
  {
    if key in desired && desired[key].Dict? && At(actual, key).Dict? then
      Differences(desired[key].fields, At(actual, key).fields, Join(prefix, key))
    else if At(desired, key) != At(actual, key) then
      [Difference(Join(prefix, key), At(desired, key), At(actual, key))]
    else []
  }

  lemma StepOver(
      keys: set<string>, key: string, desired: map<string, State>, actual: map<string, State>, prefix: string,
      rows: seq<Difference>)
    requires IsLeast(key, keys)
    ensures rows + DifferencesOver(keys, desired, actual, prefix) ==
      (rows + KeyDifferences(key, desired, actual, prefix)) + DifferencesOver(keys - {key}, desired, actual, prefix)
  {
    LeastIsUnique(key, Least(keys), keys);
  }

  /** The rows of one key: a nested loop, one row, or none. */
  method KeyRows(
      key: string, desired: map<string, State>, actual: map<string, State>, prefix: string)
    returns (rows: seq<Difference>)
    ensures rows == KeyDifferences(key, desired, actual, prefix)
    decreases Dict(desired), 0
  {
    var wanted, observed := At(desired, key), At(actual, key);
    if key in desired && wanted.Dict? && observed.Dict? {
      rows := ComputeDifferences(wanted.fields, observed.fields, Join(prefix, key));
    } else if wanted != observed {
      rows := [Difference(Join(prefix, key), wanted, observed)];
    } else {
      rows := [];
    }
  }

  method ComputeDifferences(
      desired: map<string, State>, actual: map<string, State>, prefix: string)
    returns (rows: seq<Difference>)
    ensures rows == Differences(desired, actual, prefix)
    decreases Dict(desired), 1
  {
    rows := [];
    var keys := desired.Keys + actual.Keys;
    while keys != {}
      invariant rows + DifferencesOver(keys, desired, actual, prefix) == Differences(desired, actual, prefix)
      decreases |keys|
    {
      var key := Least(keys);
      StepOver(keys, key, desired, actual, prefix, rows);
      var found := KeyRows(key, desired, actual, prefix);
      rows := rows + found;
      keys := keys - {key};
    }
    assert rows + [] == rows;
  }

  // ---------------------------------------------------------------- agreement of two states

  /** A state with its null entries dropped, at every level of dictionaries. */
  function Normalize(s: State): State
  {
    match s
    case Dict(fields) => Dict(map k | k in fields && fields[k] != Null :: Normalize(fields[k]))
    case _ => s
  }

  lemma NormalizeByKeys(a: map<string, State>, b: map<string, State>)
    ensures (forall k :: Normalize(At(a, k)) == Normalize(At(b, k))) <==> Normalize(Dict(a)) == Normalize(Dict(b))
  {
    var x, y := Normalize(Dict(a)).fields, Normalize(Dict(b)).fields;
    if forall k :: Normalize(At(a, k)) == Normalize(At(b, k)) {
      forall k ensures k in x <==> k in y ensures k in x ==> x[k] == y[k] {
        assert Normalize(At(a, k)) == Normalize(At(b, k));
      }
      assert x == y;
    }
    if x == y {
      forall k ensures Normalize(At(a, k)) == Normalize(At(b, k)) {
        assert k in x <==> At(a, k) != Null;
        assert k in y <==> At(b, k) != Null;
      }
    }
  }

  /** There is no difference exactly when the states agree, absent and null identified. */
  lemma {:induction false} ConvergedMeansAgreement(
      desired: map<string, State>, actual: map<string, State>, prefix: string)
    ensures Differences(desired, actual, prefix) == [] <==> Normalize(Dict(desired)) == Normalize(Dict(actual))
    decreases Dict(desired), 1
  {
    var keys := desired.Keys + actual.Keys;
    NoDifferencesOver(keys, desired, actual, prefix);
    NormalizeByKeys(desired, actual);
    assert forall k :: k !in keys ==> At(desired, k) == At(actual, k) == Null;
  }

  lemma {:induction false} NoDifferencesOver(
      keys: set<string>, desired: map<string, State>, actual: map<string, State>, prefix: string)
    ensures DifferencesOver(keys, desired, actual, prefix) == [] <==>
      forall k :: k in keys ==> Normalize(At(desired, k)) == Normalize(At(actual, k))
    decreases Dict(desired), 0, |keys|
  {
    if keys != {} {
      var key := Least(keys);
      NoDifferencesOver(keys - {key}, desired, actual, prefix);
      if key in desired && desired[key].Dict? && At(actual, key).Dict? {
        ConvergedMeansAgreement(desired[key].fields, At(actual, key).fields, Join(prefix, key));
      }
    }
  }

  // ---------------------------------------------------------------- reconcile and authorize

  const RECONCILE_MUTATIONS: seq<string> := ["adapter_action", "checkpoint_state", "retry_schedule"]
  const STRATEGY_PREFIXES: seq<string> := ["strategy.demo.", "strategy.rule.", "strategy.weight."]

  datatype Failure = MissingId | MissingField(name: string) | FieldMismatch(name: string) | NotConverged | NotScorable |
    NotOneMutation | OutsideStrategy

  datatype Receipt = Receipt(converged: bool, differences: seq<Difference>, allowed: seq<string>)

  function CheckField(name: string, desired: map<string, State>, actual: map<string, State>): Option<Failure>
  {
    if !At(desired, name).Dict? then Some(MissingField(name))
    else if At(actual, name) != At(desired, name) then Some(FieldMismatch(name))
    else None
  }

  function Reconcile(id: string, desired: map<string, State>, actual: map<string, State>): Result<Receipt, Failure>
  {
    if id == "" then Err(MissingId)
    else match (CheckField("scope", desired, actual), CheckField("identity", desired, actual))
      case (Some(f), _) => Err(f)
      case (None, Some(f)) => Err(f)
      case _ =>
        var rows := Differences(desired, actual, "");
        Ok(Receipt(rows == [], rows, RECONCILE_MUTATIONS))
  }

  /** A mutation that is not a string is None. */
  function Authorize(receipt: Receipt, scorable: bool, mutations: seq<Option<string>>): Result<seq<string>, Failure>
  {
    if !receipt.converged then Err(NotConverged)
    else if !scorable then Err(NotScorable)
    else if |mutations| != 1 then Err(NotOneMutation)
    else match mutations[0]
      case Some(m) =>
        if Strategic(m) then Ok([m]) else Err(OutsideStrategy)
      case None => Err(OutsideStrategy)
  }

  /** Reconciling needs an id and two equal dictionaries scope and identity; the first thing missing is reported. */
  lemma ReconcileAnswers(id: string, desired: map<string, State>, actual: map<string, State>)
    ensures var answer := Reconcile(id, desired, actual);
      var scoped := At(desired, "scope").Dict? && At(actual, "scope") == At(desired, "scope");
      && (answer.Ok? <==>
           id != "" && scoped && At(desired, "identity").Dict? && At(actual, "identity") == At(desired, "identity"))
      && (answer == Err(MissingId) <==> id == "")
      && (answer == Err(MissingField("scope")) <==> id != "" && !At(desired, "scope").Dict?)
      && (answer == Err(FieldMismatch("scope")) <==> id != "" && At(desired, "scope").Dict? && !scoped)
      && (answer == Err(MissingField("identity")) <==> id != "" && scoped && !At(desired, "identity").Dict?)
      && (answer == Err(FieldMismatch("identity")) <==>
           id != "" && scoped && At(desired, "identity").Dict? && At(actual, "identity") != At(desired, "identity"))
      && (answer.Ok? ==> answer.value.allowed == ["adapter_action", "checkpoint_state", "retry_schedule"])
  {
  }

  /** An accepted reconciliation is converged exactly on agreement. */
  lemma ConvergedReceipt(id: string, desired: map<string, State>, actual: map<string, State>)
    requires Reconcile(id, desired, actual).Ok?
    ensures Reconcile(id, desired, actual).value.converged <==> Normalize(Dict(desired)) == Normalize(Dict(actual))
  {
    ConvergedMeansAgreement(desired, actual, "");
  }

  predicate Strategic(m: string) { exists i :: 0 <= i < |STRATEGY_PREFIXES| && STRATEGY_PREFIXES[i] <= m }

  /** One strategy mutation is authorized exactly from agreement and a scorable reward. */
  lemma AuthorizedExactly(
      id: string, desired: map<string, State>, actual: map<string, State>, scorable: bool,
      mutations: seq<Option<string>>)
    requires Reconcile(id, desired, actual).Ok?
    ensures var answer := Authorize(Reconcile(id, desired, actual).value, scorable, mutations);
      && (answer.Ok? <==>
           && Normalize(Dict(desired)) == Normalize(Dict(actual)) && scorable
           && |mutations| == 1 && mutations[0].Some? && Strategic(mutations[0].value))
      && (answer.Ok? ==> answer.value == [mutations[0].value] && mutations[0].value !in RECONCILE_MUTATIONS)
      && (answer.Ok? <==>
           && Normalize(Dict(desired)) == Normalize(Dict(actual)) && scorable
           && |mutations| == 1 && mutations[0].Some?
           && ("strategy.demo." <= mutations[0].value || "strategy.rule." <= mutations[0].value
               || "strategy.weight." <= mutations[0].value))
      // the first thing that is wrong is the one reported
      && (answer == Err(NotConverged) <==> Normalize(Dict(desired)) != Normalize(Dict(actual)))
      && (answer == Err(NotScorable) <==> Normalize(Dict(desired)) == Normalize(Dict(actual)) && !scorable)
      && (answer == Err(NotOneMutation) <==>
           Normalize(Dict(desired)) == Normalize(Dict(actual)) && scorable && |mutations| != 1)
  {
    ConvergedReceipt(id, desired, actual);
    assert STRATEGY_PREFIXES[0] == "strategy.demo." && STRATEGY_PREFIXES[1] == "strategy.rule."
        && STRATEGY_PREFIXES[2] == "strategy.weight.";
    if Authorize(Reconcile(id, desired, actual).value, scorable, mutations).Ok? {
      var i :| 0 <= i < |STRATEGY_PREFIXES| && STRATEGY_PREFIXES[i] <= mutations[0].value;
      assert mutations[0].value[0] == STRATEGY_PREFIXES[i][0] == 's';
    }
  }
}
