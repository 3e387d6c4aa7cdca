/**
 * The evaluator looks at nothing outside the closure of the root: two sealed maps that agree on the
 * resources that references can reach give the same verdict, path and reason.
 */
module SealedClosure {
  import opened Prelude
  import opened SchemaEvaluator
  import opened SchemaTargets

  /** `keys` is closed under references, and the two environments agree on it. */
  ghost predicate AgreeOn(e1: Env, e2: Env, keys: set<string>) {
    e1.isPattern == e2.isPattern && e1.finds == e2.finds
    && (forall k :: k in keys ==> k in e1.resources && k in e2.resources && e1.resources[k] == e2.resources[k])
    && forall k, r, t :: k in keys && k in e1.resources && r in References(e1.resources[k]) && Names(k, r, t) ==>
         t in keys || (t !in e1.resources && t !in e2.resources)
  }

  /** A schema in place, in both environments. */
  ghost predicate InBoth(e1: Env, e2: Env, keys: set<string>, schema: Json, key: string) {
    AgreeOn(e1, e2, keys) && key in keys && Located(e1, schema, key) && Located(e2, schema, key)
  }

  lemma PartInBoth(e1: Env, e2: Env, keys: set<string>, schema: Json, key: string)
    requires InBoth(e1, e2, keys, schema, key)
    ensures schema.Obj? ==> forall k :: k in schema.fields ==> InBoth(e1, e2, keys, schema.fields[k], key)
    ensures schema.Arr? ==> forall i :: 0 <= i < |schema.items| ==> InBoth(e1, e2, keys, schema.items[i], key)
  {
    ChildLocated(e1, schema, key);
    ChildLocated(e2, schema, key);
  }

  lemma SameTarget(e1: Env, e2: Env, keys: set<string>, schema: Json, key: string)
    requires InBoth(e1, e2, keys, schema, key) && Text(schema.Get("$ref")).Some?
    ensures var reference := Text(schema.Get("$ref")).value;
            && ResolveReference(e1, key, reference) == ResolveReference(e2, key, reference)
            && (ResolveReference(e1, key, reference).Ok? ==>
                  var target := ResolveReference(e1, key, reference).value;
                  InBoth(e1, e2, keys, target.1, target.0))
  {
    var reference := Text(schema.Get("$ref")).value;
    assert reference in References(schema);
    NamesExactly(key, reference, TargetKey(key, reference));
    hide Names, TargetKey;
    if ResolveReference(e1, key, reference).Ok? {
      ResolvedIsLocated(e1, key, reference);
      ResolvedIsLocated(e2, key, reference);
    }
  }

  /**
   * The verdict, with its path and reason, is a function of the reachable resources alone: nothing else
   * in the map can change it.
   */
  lemma {:induction false} SameVerdict(
      e1: Env, e2: Env, keys: set<string>, active: set<string>, value: Json, schema: Json, key: string, path: string)
    requires InBoth(e1, e2, keys, schema, key)
    ensures Eval(e1, active, value, schema, key, path) == Eval(e2, active, value, schema, key, path)
    decreases Idle(e1, active), schema, 9, 0
  {
    hide EvalReference, EvalCompositions, EvalArray, EvalObject, CheckKeywords, CheckType, CheckConst, CheckEnum;
    if schema.Obj? {
      SameReference(e1, e2, keys, active, value, schema, key, path);
      SameCompositions(e1, e2, keys, active, value, schema, key, path);
      SameArray(e1, e2, keys, active, value, schema, key, path);
      SameObject(e1, e2, keys, active, value, schema, key, path);
    }
  }

  lemma {:induction false} SameReference(
      e1: Env, e2: Env, keys: set<string>, active: set<string>, value: Json, schema: Json, key: string, path: string)
    requires InBoth(e1, e2, keys, schema, key)
    ensures EvalReference(e1, active, value, schema, key, path) == EvalReference(e2, active, value, schema, key, path)
    decreases Idle(e1, active), schema, 8, 0
  {
    hide Eval, References, AgreeOn;
    if Text(schema.Get("$ref")).Some? {
      var reference := Text(schema.Get("$ref")).value;
      var name := ReferenceKey(key, reference);
      SameTarget(e1, e2, keys, schema, key);
      if name !in active && ResolveReference(e1, key, reference).Ok? {
        var target := ResolveReference(e1, key, reference).value;
        ActivationProgress(e1, active, schema, key);
        SameVerdict(e1, e2, keys, active + {name}, value, target.1, target.0, path);
      }
    }
  }

  lemma {:induction false} SameCompositions(
      e1: Env, e2: Env, keys: set<string>, active: set<string>, value: Json, schema: Json, key: string, path: string)
    requires InBoth(e1, e2, keys, schema, key) && schema.Obj?
    ensures EvalCompositions(e1, active, value, schema, key, path) == EvalCompositions(e2, active, value, schema, key, path)
    decreases Idle(e1, active), schema, 8, 0
  {
    hide EvalLists, EvalCondition, EvalNot;
    SameLists(e1, e2, keys, active, value, schema, key, path);
    SameCondition(e1, e2, keys, active, value, schema, key, path);
    SameNot(e1, e2, keys, active, value, schema, key, path);
  }

  lemma {:induction false} SameLists(
      e1: Env, e2: Env, keys: set<string>, active: set<string>, value: Json, schema: Json, key: string, path: string)
    requires InBoth(e1, e2, keys, schema, key) && schema.Obj?
    ensures EvalLists(e1, active, value, schema, key, path) == EvalLists(e2, active, value, schema, key, path)
    decreases Idle(e1, active), schema, 7, 0
  {
    hide EvalAll, EvalBranches, Located, AgreeOn;
    PartInBoth(e1, e2, keys, schema, key);
    if HasList(schema, "allOf") {
      SameAll(e1, e2, keys, active, value, schema.fields["allOf"], 0, key, path);
    }
    if HasList(schema, "anyOf") {
      SameBranches(e1, e2, keys, active, value, schema.fields["anyOf"], 0, key, path, Tally(0, None));
    }
    if HasList(schema, "oneOf") {
      SameBranches(e1, e2, keys, active, value, schema.fields["oneOf"], 0, key, path, Tally(0, None));
    }
  }

  lemma {:induction false} SameAll(
      e1: Env, e2: Env, keys: set<string>, active: set<string>, value: Json, list: Json, i: nat, key: string, path: string)
    requires InBoth(e1, e2, keys, list, key) && list.Arr? && i <= |list.items|
    ensures EvalAll(e1, active, value, list, i, key, path) == EvalAll(e2, active, value, list, i, key, path)
    decreases Idle(e1, active), list, 0, |list.items| - i
  {
    hide Eval, Located, AgreeOn;
    if i < |list.items| {
      PartInBoth(e1, e2, keys, list, key);
      SameVerdict(e1, e2, keys, active, value, list.items[i], key, path);
      SameAll(e1, e2, keys, active, value, list, i + 1, key, path);
    }
  }

  lemma {:induction false} SameBranches(
      e1: Env, e2: Env, keys: set<string>, active: set<string>, value: Json, list: Json, i: nat, key: string, path: string, tally: Tally)
    requires InBoth(e1, e2, keys, list, key) && list.Arr? && i <= |list.items|
    ensures EvalBranches(e1, active, value, list, i, key, path, tally) == EvalBranches(e2, active, value, list, i, key, path, tally)
    decreases Idle(e1, active), list, 0, |list.items| - i
  {
    hide Eval, Located, AgreeOn, Count;
    if i < |list.items| {
      PartInBoth(e1, e2, keys, list, key);
      SameVerdict(e1, e2, keys, active, value, list.items[i], key, path);
      var next := Count(tally, Eval(e1, active, value, list.items[i], key, path));
      SameBranches(e1, e2, keys, active, value, list, i + 1, key, path, next);
    }
  }

  lemma {:induction false} SameCondition(
      e1: Env, e2: Env, keys: set<string>, active: set<string>, value: Json, schema: Json, key: string, path: string)
    requires InBoth(e1, e2, keys, schema, key) && schema.Obj?
    ensures EvalCondition(e1, active, value, schema, key, path) == EvalCondition(e2, active, value, schema, key, path)
    decreases Idle(e1, active), schema, 7, 0
  {
    hide Eval, Located, AgreeOn;
    PartInBoth(e1, e2, keys, schema, key);
    forall k | k in {"if", "then", "else"} && k in schema.fields
      ensures Eval(e1, active, value, schema.fields[k], key, path) == Eval(e2, active, value, schema.fields[k], key, path)
    {
      SameVerdict(e1, e2, keys, active, value, schema.fields[k], key, path);
    }
  }

  lemma {:induction false} SameNot(
      e1: Env, e2: Env, keys: set<string>, active: set<string>, value: Json, schema: Json, key: string, path: string)
    requires InBoth(e1, e2, keys, schema, key) && schema.Obj?
    ensures EvalNot(e1, active, value, schema, key, path) == EvalNot(e2, active, value, schema, key, path)
    decreases Idle(e1, active), schema, 7, 0
  {
    hide Eval, Located, AgreeOn;
    PartInBoth(e1, e2, keys, schema, key);
    if "not" in schema.fields {
      SameVerdict(e1, e2, keys, active, value, schema.fields["not"], key, path);
    }
  }

  lemma {:induction false} SameArray(
      e1: Env, e2: Env, keys: set<string>, active: set<string>, value: Json, schema: Json, key: string, path: string)
    requires InBoth(e1, e2, keys, schema, key) && schema.Obj?
    ensures EvalArray(e1, active, value, schema, key, path) == EvalArray(e2, active, value, schema, key, path)
    decreases Idle(e1, active), schema, 8, 0
  {
    hide EvalItems, EvalTuple, CountContained, Located, AgreeOn, CheckSize;
    PartInBoth(e1, e2, keys, schema, key);
    if value.Arr? {
      if HasTable(schema, "items") {
        SameItems(e1, e2, keys, active, value.items, 0, schema.fields["items"], key, path);
      }
      if HasList(schema, "items") {
        SameTuple(e1, e2, keys, active, value.items, 0, schema.fields["items"], key, path);
      }
      if "contains" in schema.fields {
        SameContained(e1, e2, keys, active, value.items, 0, schema.fields["contains"], key, path);
      }
    }
  }

  lemma {:induction false} SameItems(
      e1: Env, e2: Env, keys: set<string>, active: set<string>, values: seq<Json>, i: nat, schema: Json, key: string, path: string)
    requires InBoth(e1, e2, keys, schema, key) && i <= |values|
    ensures EvalItems(e1, active, values, i, schema, key, path) == EvalItems(e2, active, values, i, schema, key, path)
    decreases Idle(e1, active), schema, 10, |values| - i
  {
    hide Eval, Located, AgreeOn, IndexPath;
    if i < |values| {
      SameVerdict(e1, e2, keys, active, values[i], schema, key, IndexPath(path, i));
      SameItems(e1, e2, keys, active, values, i + 1, schema, key, path);
    }
  }

  lemma {:induction false} SameTuple(
      e1: Env, e2: Env, keys: set<string>, active: set<string>, values: seq<Json>, i: nat, tuple: Json, key: string, path: string)
    requires InBoth(e1, e2, keys, tuple, key) && tuple.Arr? && i <= |values|
    ensures EvalTuple(e1, active, values, i, tuple, key, path) == EvalTuple(e2, active, values, i, tuple, key, path)
    decreases Idle(e1, active), tuple, 10, |values| - i
  {
    hide Eval, Located, AgreeOn, IndexPath;
    if i < |values| {
      PartInBoth(e1, e2, keys, tuple, key);
      if i < |tuple.items| {
        SameVerdict(e1, e2, keys, active, values[i], tuple.items[i], key, IndexPath(path, i));
      }
      SameTuple(e1, e2, keys, active, values, i + 1, tuple, key, path);
    }
  }

  lemma {:induction false} SameContained(
      e1: Env, e2: Env, keys: set<string>, active: set<string>, values: seq<Json>, i: nat, schema: Json, key: string, path: string)
    requires InBoth(e1, e2, keys, schema, key) && i <= |values|
    ensures CountContained(e1, active, values, i, schema, key, path) == CountContained(e2, active, values, i, schema, key, path)
    decreases Idle(e1, active), schema, 10, |values| - i
  {
    hide Eval, Located, AgreeOn;
    if i < |values| {
      SameVerdict(e1, e2, keys, active, values[i], schema, key, path);
      SameContained(e1, e2, keys, active, values, i + 1, schema, key, path);
    }
  }

  lemma {:induction false} SameObject(
      e1: Env, e2: Env, keys: set<string>, active: set<string>, value: Json, schema: Json, key: string, path: string)
    requires InBoth(e1, e2, keys, schema, key) && schema.Obj?
    ensures EvalObject(e1, active, value, schema, key, path) == EvalObject(e2, active, value, schema, key, path)
    decreases Idle(e1, active), schema, 8, 0
  {
    hide EvalDeclared, EvalOpen, CheckMembers;
    if value.Obj? {
      SameDeclared(e1, e2, keys, active, value.fields, schema, key, path);
      SameOpen(e1, e2, keys, active, value.fields, schema, key, path);
    }
  }

  lemma {:induction false} SameDeclared(
      e1: Env, e2: Env, keys: set<string>, active: set<string>, fields: map<string, Json>, schema: Json, key: string, path: string)
    requires InBoth(e1, e2, keys, schema, key) && schema.Obj?
    ensures EvalDeclared(e1, active, fields, schema, key, path) == EvalDeclared(e2, active, fields, schema, key, path)
    decreases Idle(e1, active), schema, 7, 0
  {
    hide EvalNames, EvalProperties, Located, AgreeOn;
    PartInBoth(e1, e2, keys, schema, key);
    if "propertyNames" in schema.fields {
      SameNames(e1, e2, keys, active, NamesOf(fields), schema.fields["propertyNames"], key, path);
    }
    if HasTable(schema, "properties") {
      var properties := schema.fields["properties"];
      SameProperties(e1, e2, keys, active, fields, NamesOf(properties.fields), properties, key, path);
    }
  }

  lemma {:induction false} SameOpen(
      e1: Env, e2: Env, keys: set<string>, active: set<string>, fields: map<string, Json>, schema: Json, key: string, path: string)
    requires InBoth(e1, e2, keys, schema, key) && schema.Obj?
    ensures EvalOpen(e1, active, fields, schema, key, path) == EvalOpen(e2, active, fields, schema, key, path)
    decreases Idle(e1, active), schema, 7, 0
  {
    hide EvalPatterns, EvalAdditional, Located, AgreeOn;
    PartInBoth(e1, e2, keys, schema, key);
    if HasTable(schema, "patternProperties") {
      var patterns := schema.fields["patternProperties"];
      SamePatterns(e1, e2, keys, active, fields, NamesOf(patterns.fields), patterns, key, path);
    }
    if "additionalProperties" in schema.fields {
      SameAdditional(e1, e2, keys, active, fields, NamesOf(fields), schema, key, path);
    }
  }

  lemma {:induction false} SameNames(
      e1: Env, e2: Env, keys: set<string>, active: set<string>, names: seq<string>, schema: Json, key: string, path: string)
    requires InBoth(e1, e2, keys, schema, key)
    ensures EvalNames(e1, active, names, schema, key, path) == EvalNames(e2, active, names, schema, key, path)
    decreases Idle(e1, active), schema, 10, |names|
  {
    hide Eval, Located, AgreeOn, PropertyPath;
    if names != [] {
      SameVerdict(e1, e2, keys, active, Str(names[0]), schema, key, PropertyPath(path, names[0]));
      SameNames(e1, e2, keys, active, names[1..], schema, key, path);
    }
  }

  lemma {:induction false} SameProperties(
      e1: Env, e2: Env, keys: set<string>, active: set<string>, fields: map<string, Json>, names: seq<string>, properties: Json, key: string,
      path: string)
    requires InBoth(e1, e2, keys, properties, key) && properties.Obj? && Within(names, properties.fields)
    ensures EvalProperties(e1, active, fields, names, properties, key, path) == EvalProperties(e2, active, fields, names, properties, key, path)
    decreases Idle(e1, active), properties, 0, |names|
  {
    hide Eval, Located, AgreeOn, PropertyPath;
    if names != [] {
      var name := names[0];
      PartInBoth(e1, e2, keys, properties, key);
      if name in fields {
        SameVerdict(e1, e2, keys, active, fields[name], properties.fields[name], key, PropertyPath(path, name));
      }
      SameProperties(e1, e2, keys, active, fields, names[1..], properties, key, path);
    }
  }

  lemma {:induction false} SamePatterns(
      e1: Env, e2: Env, keys: set<string>, active: set<string>, fields: map<string, Json>, names: seq<string>, patterns: Json, key: string,
      path: string)
    requires InBoth(e1, e2, keys, patterns, key) && patterns.Obj? && Within(names, patterns.fields)
    ensures EvalPatterns(e1, active, fields, names, patterns, key, path) == EvalPatterns(e2, active, fields, names, patterns, key, path)
    decreases Idle(e1, active), patterns, 0, |names|
  {
    hide EvalMatching, Located;
    if names != [] {
      var pattern := names[0];
      PartInBoth(e1, e2, keys, patterns, key);
      SameMatching(e1, e2, keys, active, fields, NamesOf(fields), pattern, patterns.fields[pattern], key, path);
      SamePatterns(e1, e2, keys, active, fields, names[1..], patterns, key, path);
    }
  }

  lemma {:induction false} SameMatching(
      e1: Env, e2: Env, keys: set<string>, active: set<string>, fields: map<string, Json>, names: seq<string>, pattern: string, schema: Json,
      key: string, path: string)
    requires InBoth(e1, e2, keys, schema, key) && Within(names, fields)
    ensures EvalMatching(e1, active, fields, names, pattern, schema, key, path) == EvalMatching(e2, active, fields, names, pattern, schema, key, path)
    decreases Idle(e1, active), schema, 10, |names|
  {
    hide Eval, Located, PropertyPath;
    if names != [] {
      SameVerdict(e1, e2, keys, active, fields[names[0]], schema, key, PropertyPath(path, names[0]));
      SameMatching(e1, e2, keys, active, fields, names[1..], pattern, schema, key, path);
    }
  }

  lemma {:induction false} SameAdditional(
      e1: Env, e2: Env, keys: set<string>, active: set<string>, fields: map<string, Json>, names: seq<string>, schema: Json, key: string,
      path: string)
    requires InBoth(e1, e2, keys, schema, key) && schema.Obj? && "additionalProperties" in schema.fields
             && Within(names, fields)
    ensures EvalAdditional(e1, active, fields, names, schema, key, path) == EvalAdditional(e2, active, fields, names, schema, key, path)
    decreases Idle(e1, active), schema, 6, |names|
  {
    hide Eval, Located, PropertyPath, Covered;
    if names != [] {
      PartInBoth(e1, e2, keys, schema, key);
      SameCovered(e1, e2, keys, schema, names[0]);
      SameVerdict(e1, e2, keys, active, fields[names[0]], schema.fields["additionalProperties"], key, PropertyPath(path, names[0]));
      SameAdditional(e1, e2, keys, active, fields, names[1..], schema, key, path);
    }
  }

  lemma SameCovered(e1: Env, e2: Env, keys: set<string>, schema: Json, name: string)
    requires AgreeOn(e1, e2, keys)
    ensures Covered(e1, schema, name) == Covered(e2, schema, name)
  {
    assert forall p :: e1.Matches(p, name) == e2.Matches(p, name);
  }
}
