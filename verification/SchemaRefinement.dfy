/** The evaluator decides satisfaction: its loops are quantifiers, its probes are negations and counts. */
module SchemaRefinement {
  import opened Prelude
  import opened SchemaEvaluator
  import opened SchemaMeaning
  import opened SchemaTargets

  predicate Cyclic(v: Verdict) {
    v.Invalid? && v.reason == CyclicReference
  }

  /* ---------- each loop as a quantifier over its elements ---------- */

  lemma {:induction false} AllLoop(env: Env, active: set<string>, value: Json, list: Json, i: nat, key: string, path: string)
    requires Located(env, list, key) && list.Arr? && i <= |list.items|
    requires forall j :: 0 <= j < |list.items| ==> Located(env, list.items[j], key)
    requires forall j :: i <= j < |list.items| ==> !Cyclic(Eval(env, active, value, list.items[j], key, path))
    ensures !Cyclic(EvalAll(env, active, value, list, i, key, path))
    ensures EvalAll(env, active, value, list, i, key, path).Valid?
       <==> forall j :: i <= j < |list.items| ==> Eval(env, active, value, list.items[j], key, path).Valid?
    decreases |list.items| - i
  {
    hide Eval, Located;
    if i < |list.items| {
      AllLoop(env, active, value, list, i + 1, key, path);
    }
  }

  /** The branches from `i` on that match. */
  ghost function Matching(env: Env, active: set<string>, value: Json, list: Json, i: nat, key: string, path: string): set<nat>
    requires Located(env, list, key) && list.Arr?
    requires forall j :: 0 <= j < |list.items| ==> Located(env, list.items[j], key)
  {
    set j: nat | i <= j < |list.items| && Eval(env, active, value, list.items[j], key, path).Valid?
  }

  lemma OneMoreMatch(env: Env, active: set<string>, value: Json, list: Json, i: nat, key: string, path: string)
    requires Located(env, list, key) && list.Arr? && i < |list.items|
    requires forall j :: 0 <= j < |list.items| ==> Located(env, list.items[j], key)
    ensures var rest := |Matching(env, active, value, list, i + 1, key, path)|;
            |Matching(env, active, value, list, i, key, path)|
            == if Eval(env, active, value, list.items[i], key, path).Valid? then rest + 1 else rest
  {
    hide Eval, Located;
    var here, rest := Matching(env, active, value, list, i, key, path), Matching(env, active, value, list, i + 1, key, path);
    if Eval(env, active, value, list.items[i], key, path).Valid? {
      assert here == rest + {i} && i !in rest;
    } else {
      assert here == rest;
    }
  }

  ghost predicate NeverCyclic(tally: Tally) {
    tally.firstError.Some? ==> tally.firstError.value.Invalid? && !Cyclic(tally.firstError.value)
  }

  lemma {:induction false} BranchLoop(
      env: Env, active: set<string>, value: Json, list: Json, i: nat, key: string, path: string, tally: Tally)
    requires Located(env, list, key) && list.Arr? && i <= |list.items|
    requires forall j :: 0 <= j < |list.items| ==> Located(env, list.items[j], key)
    requires forall j :: i <= j < |list.items| ==> !Cyclic(Eval(env, active, value, list.items[j], key, path))
    requires NeverCyclic(tally)
    ensures var result := EvalBranches(env, active, value, list, i, key, path, tally);
            && NeverCyclic(result)
            && result.matches == tally.matches + |Matching(env, active, value, list, i, key, path)|
    decreases |list.items| - i
  {
    hide Eval, Located;
    if i < |list.items| {
      var branch := Eval(env, active, value, list.items[i], key, path);
      var next := Count(tally, branch);
      BranchLoop(env, active, value, list, i + 1, key, path, next);
      OneMoreMatch(env, active, value, list, i, key, path);
    } else {
      assert Matching(env, active, value, list, i, key, path) == {};
    }
  }

  lemma SingleMatch(s: set<nat>)
    ensures |s| > 0 <==> exists i :: i in s
    ensures |s| == 1 <==> exists i :: i in s && forall j :: j in s ==> j == i
  {
    if i :| i in s {
      assert s == {i} + (s - {i});
      if forall j :: j in s ==> j == i {
        assert s == {i};
      }
      if |s| == 1 {
        assert |s - {i}| == 0;
        assert forall j :: j in s && j != i ==> j in s - {i};
      }
    }
  }

  lemma {:induction false} ItemsLoop(
      env: Env, active: set<string>, values: seq<Json>, i: nat, schema: Json, key: string, path: string)
    requires Located(env, schema, key) && i <= |values|
    requires forall j :: i <= j < |values| ==> !Cyclic(Eval(env, active, values[j], schema, key, IndexPath(path, j)))
    ensures !Cyclic(EvalItems(env, active, values, i, schema, key, path))
    ensures EvalItems(env, active, values, i, schema, key, path).Valid?
       <==> forall j :: i <= j < |values| ==> Eval(env, active, values[j], schema, key, IndexPath(path, j)).Valid?
    decreases |values| - i
  {
    hide Eval, Located, IndexPath;
    if i < |values| {
      ItemsLoop(env, active, values, i + 1, schema, key, path);
    }
  }

  lemma {:induction false} TupleLoop(
      env: Env, active: set<string>, values: seq<Json>, i: nat, tuple: Json, key: string, path: string)
    requires Located(env, tuple, key) && tuple.Arr? && i <= |values|
    requires forall j :: 0 <= j < |tuple.items| ==> Located(env, tuple.items[j], key)
    requires forall j :: i <= j < |values| && j < |tuple.items| ==>
               !Cyclic(Eval(env, active, values[j], tuple.items[j], key, IndexPath(path, j)))
    ensures !Cyclic(EvalTuple(env, active, values, i, tuple, key, path))
    ensures EvalTuple(env, active, values, i, tuple, key, path).Valid?
       <==> forall j :: i <= j < |values| && j < |tuple.items| ==>
              Eval(env, active, values[j], tuple.items[j], key, IndexPath(path, j)).Valid?
    decreases |values| - i
  {
    hide Eval, Located, IndexPath;
    if i < |values| {
      TupleLoop(env, active, values, i + 1, tuple, key, path);
    }
  }

  lemma {:induction false} ContainsLoop(
      env: Env, active: set<string>, values: seq<Json>, i: nat, schema: Json, key: string, path: string)
    requires Located(env, schema, key) && i <= |values|
    ensures CountContained(env, active, values, i, schema, key, path) > 0
       <==> exists j :: i <= j < |values| && Eval(env, active, values[j], schema, key, path).Valid?
    decreases |values| - i
  {
    hide Eval, Located;
    if i < |values| {
      ContainsLoop(env, active, values, i + 1, schema, key, path);
    }
  }

  lemma {:induction false} NamesLoop(
      env: Env, active: set<string>, names: seq<string>, schema: Json, key: string, path: string)
    requires Located(env, schema, key)
    requires forall name :: name in names ==> !Cyclic(Eval(env, active, Str(name), schema, key, PropertyPath(path, name)))
    ensures !Cyclic(EvalNames(env, active, names, schema, key, path))
    ensures EvalNames(env, active, names, schema, key, path).Valid?
       <==> forall name :: name in names ==> Eval(env, active, Str(name), schema, key, PropertyPath(path, name)).Valid?
  {
    hide Eval, Located, PropertyPath;
    if names != [] {
      assert names == [names[0]] + names[1..];
      NamesLoop(env, active, names[1..], schema, key, path);
    }
  }

  lemma {:induction false} PropertiesLoop(
      env: Env, active: set<string>, fields: map<string, Json>, names: seq<string>, properties: Json, key: string, path: string)
    requires Located(env, properties, key) && properties.Obj? && Within(names, properties.fields)
    requires forall name :: name in properties.fields ==> Located(env, properties.fields[name], key)
    requires forall name :: name in properties.fields && name in fields ==>
               !Cyclic(Eval(env, active, fields[name], properties.fields[name], key, PropertyPath(path, name)))
    ensures !Cyclic(EvalProperties(env, active, fields, names, properties, key, path))
    ensures EvalProperties(env, active, fields, names, properties, key, path).Valid?
       <==> forall name :: name in names && name in properties.fields && name in fields ==>
              Eval(env, active, fields[name], properties.fields[name], key, PropertyPath(path, name)).Valid?
  {
    hide Eval, Located, PropertyPath;
    if names != [] {
      assert names == [names[0]] + names[1..];
      PropertiesLoop(env, active, fields, names[1..], properties, key, path);
    }
  }

  lemma {:induction false} MatchingLoop(
      env: Env, active: set<string>, fields: map<string, Json>, names: seq<string>, pattern: string, schema: Json,
      key: string, path: string)
    requires Located(env, schema, key) && Within(names, fields)
    requires forall name :: name in fields ==> !Cyclic(Eval(env, active, fields[name], schema, key, PropertyPath(path, name)))
    ensures !Cyclic(EvalMatching(env, active, fields, names, pattern, schema, key, path))
    ensures EvalMatching(env, active, fields, names, pattern, schema, key, path).Valid?
       <==> forall name :: name in names && name in fields && env.Matches(pattern, name) ==>
              Eval(env, active, fields[name], schema, key, PropertyPath(path, name)).Valid?
  {
    hide Eval, Located, PropertyPath;
    if names != [] {
      assert names == [names[0]] + names[1..];
      MatchingLoop(env, active, fields, names[1..], pattern, schema, key, path);
    }
  }

  /** One pattern: a regular expression whose members all fit. */
  ghost predicate PatternHolds(
      env: Env, active: set<string>, fields: map<string, Json>, patterns: Json, pattern: string, key: string, path: string)
    requires Located(env, patterns, key) && patterns.Obj?
    requires pattern in patterns.fields && Located(env, patterns.fields[pattern], key)
  {
    env.isPattern(pattern)
    && EvalMatching(env, active, fields, NamesOf(fields), pattern, patterns.fields[pattern], key, path).Valid?
  }

  lemma {:induction false} PatternsLoop(
      env: Env, active: set<string>, fields: map<string, Json>, names: seq<string>, patterns: Json, key: string, path: string)
    requires Located(env, patterns, key) && patterns.Obj? && Within(names, patterns.fields)
    requires forall p :: p in patterns.fields ==> Located(env, patterns.fields[p], key)
    requires forall p :: p in patterns.fields ==>
               !Cyclic(EvalMatching(env, active, fields, NamesOf(fields), p, patterns.fields[p], key, path))
    ensures !Cyclic(EvalPatterns(env, active, fields, names, patterns, key, path))
    ensures EvalPatterns(env, active, fields, names, patterns, key, path).Valid?
       <==> forall p :: p in names && p in patterns.fields ==> PatternHolds(env, active, fields, patterns, p, key, path)
  {
    hide EvalMatching, Located;
    if names != [] {
      assert names == [names[0]] + names[1..];
      PatternsLoop(env, active, fields, names[1..], patterns, key, path);
    }
  }

  lemma {:induction false} AdditionalLoop(
      env: Env, active: set<string>, fields: map<string, Json>, names: seq<string>, schema: Json, key: string, path: string)
    requires Located(env, schema, key) && schema.Obj? && "additionalProperties" in schema.fields && Within(names, fields)
    requires Located(env, schema.fields["additionalProperties"], key)
    requires forall name :: name in fields ==>
               !Cyclic(Eval(env, active, fields[name], schema.fields["additionalProperties"], key, PropertyPath(path, name)))
    ensures !Cyclic(EvalAdditional(env, active, fields, names, schema, key, path))
    ensures var additional := schema.fields["additionalProperties"];
            EvalAdditional(env, active, fields, names, schema, key, path).Valid?
            <==> forall name :: name in names && name in fields && !Covered(env, schema, name) ==>
              additional == Bool(true)
              || (additional.Obj? && Eval(env, active, fields[name], additional, key, PropertyPath(path, name)).Valid?)
  {
    hide Eval, Located, PropertyPath, Covered;
    if names != [] {
      assert names == [names[0]] + names[1..];
      AdditionalLoop(env, active, fields, names[1..], schema, key, path);
    }
  }

  /* ---------- the checks without sub-schemas ---------- */

  lemma {:induction false} UnsupportedLoop(names: seq<string>)
    ensures UnsupportedKeywords(names).None? <==> forall name :: name in names ==> name in SUPPORTED
  {
    if names != [] {
      assert names == [names[0]] + names[1..];
      UnsupportedLoop(names[1..]);
    }
  }

  lemma KeywordsMean(schema: Json, path: string)
    requires schema.Obj?
    ensures CheckKeywords(schema, path).Valid? <==> schema.fields.Keys <= SUPPORTED
    ensures !Cyclic(CheckKeywords(schema, path))
  {
    UnsupportedLoop(NamesOf(schema.fields));
  }

  lemma LocalMeans(env: Env, schema: Json, value: Json, path: string)
    ensures CheckLocal(env, schema, value, path).Valid?
       <==> AllowsType(schema, value) && AllowsValue(schema, value) && AllowsString(env, schema, value)
    ensures !Cyclic(CheckLocal(env, schema, value, path))
  {
    hide TypeMatches;
    TypeMeans(schema, value, path);
  }

  lemma TypeMeans(schema: Json, value: Json, path: string)
    ensures CheckType(schema, value, path).Valid? <==> AllowsType(schema, value)
  {
    match schema.Get("type")
    case Some(Arr(names)) =>
      if name :| name in names && name.Str? && TypeMatches(value, name.text) {
        var i :| 0 <= i < |names| && names[i] == name;
      }
    case _ =>
  }

  lemma NumberMeans(schema: Json, value: Json, path: string)
    ensures CheckNumber(schema, value, path).Valid? <==> AllowsNumber(schema, value)
    ensures !Cyclic(CheckNumber(schema, value, path))
  {
  }

  lemma SizeMeans(schema: Json, values: seq<Json>, path: string)
    ensures CheckSize(schema, values, path).Valid? <==> AllowsSize(schema, values)
    ensures !Cyclic(CheckSize(schema, values, path))
  {
  }

  lemma {:induction false} RequiredLoop(fields: map<string, Json>, required: seq<Json>, path: string)
    ensures CheckRequired(fields, required, path).Valid? <==> forall name :: name in required ==> name.Str? && name.text in fields
    ensures !Cyclic(CheckRequired(fields, required, path))
  {
    if required != [] {
      assert required == [required[0]] + required[1..];
      RequiredLoop(fields, required[1..], path);
    }
  }

  lemma MembersMean(schema: Json, fields: map<string, Json>, path: string)
    ensures CheckMembers(schema, fields, path).Valid? <==> AllowsMembers(schema, fields)
    ensures !Cyclic(CheckMembers(schema, fields, path))
  {
    RequiredLoop(fields, RequiredNames(schema), path);
  }

  /* ---------- the refinement ---------- */

  /** Nothing that is active can be met below the bound. */
  ghost predicate Above(rank: Ranking, active: set<string>, bound: nat) {
    forall name :: name in active && name in rank ==> rank[name] >= bound
  }

  /** The evaluator agrees with satisfaction on a value, and does not find a cycle. */
  ghost predicate Agrees(
      env: Env, rank: Ranking, active: set<string>, value: Json, schema: Json, key: string, bound: nat, path: string)
    requires Ranked(env, rank, schema, key, bound)
  {
    var v := Eval(env, active, value, schema, key, path);
    (v.Valid? <==> Sat(env, rank, value, schema, key, bound)) && !Cyclic(v)
  }

  /**
   * If no chain of references that starts at the schema is cyclic, the evaluator succeeds exactly on the
   * values that satisfy the schema, and never reports a cycle, for every value, path and set of active
   * references that are out of reach.  Cycles elsewhere in the resources do not matter.
   */
  lemma {:induction false} EvalDecidesSat(
      env: Env, rank: Ranking, active: set<string>, value: Json, schema: Json, key: string, bound: nat, path: string)
    requires Ranked(env, rank, schema, key, bound) && Above(rank, active, bound)
    ensures Agrees(env, rank, active, value, schema, key, bound, path)
    decreases bound, schema, 5
  {
    hide EvalReference, EvalCompositions, EvalArray, EvalObject, SatReference, SatCompositions, SatArray, SatObject,
      CheckLocal, CheckNumber, AllowsType, AllowsValue, AllowsString, AllowsNumber, CheckKeywords;
    if schema.Obj? {
      KeywordsMean(schema, path);
      ReferenceDecides(env, rank, active, value, schema, key, bound, path);
      CompositionsDecide(env, rank, active, value, schema, key, bound, path);
      LocalMeans(env, schema, value, path);
      ArrayDecides(env, rank, active, value, schema, key, bound, path);
      ObjectDecides(env, rank, active, value, schema, key, bound, path);
      NumberMeans(schema, value, path);
    }
  }

  lemma {:induction false} ReferenceDecides(
      env: Env, rank: Ranking, active: set<string>, value: Json, schema: Json, key: string, bound: nat, path: string)
    requires Ranked(env, rank, schema, key, bound) && Above(rank, active, bound)
    ensures EvalReference(env, active, value, schema, key, path).Valid? <==> SatReference(env, rank, value, schema, key, bound)
    ensures !Cyclic(EvalReference(env, active, value, schema, key, path))
    decreases bound, schema, 4
  {
    hide Eval, Sat, Leads;
    match schema.Get("$ref")
    case Some(Str(reference)) =>
      ResolutionIsNotCyclic(env, key, reference);
      forall target, next
        ensures ResolveReference(env, key, reference) == Ok((target, next)) <==> Leads(env, key, reference, target, next)
      {
        ResolvesExactly(env, key, reference, target, next);
      }
      if ResolveReference(env, key, reference).Ok? {
        var name, target := ReferenceKey(key, reference), ResolveReference(env, key, reference).value;
        TargetRanked(env, rank, schema, key, bound, reference, target.0, target.1);
        EvalDecidesSat(env, rank, active + {name}, value, target.1, target.0, rank[name], path);
      }
    case _ =>
  }

  lemma ResolutionIsNotCyclic(env: Env, key: string, reference: string)
    ensures ResolveReference(env, key, reference).Err? ==> ResolveReference(env, key, reference).error != CyclicReference
  {
  }

  /** A part of the schema, on any value and path. */
  lemma {:induction false} PartDecides(
      env: Env, rank: Ranking, active: set<string>, value: Json, schema: Json, key: string, bound: nat, path: string,
      part: Json)
    requires Ranked(env, rank, schema, key, bound) && Above(rank, active, bound) && part in Applied(schema)
    ensures Located(env, part, key)
    ensures Eval(env, active, value, part, key, path).Valid? <==> Part(env, rank, value, schema, key, bound, part)
    ensures !Cyclic(Eval(env, active, value, part, key, path))
    decreases bound, schema, 0
  {
    hide Eval, Sat;
    AppliedRanked(env, rank, schema, key, bound);
    EvalDecidesSat(env, rank, active, value, part, key, bound, path);
  }

  lemma {:induction false} AllOfDecides(
      env: Env, rank: Ranking, active: set<string>, value: Json, schema: Json, key: string, bound: nat, path: string)
    requires Ranked(env, rank, schema, key, bound) && Above(rank, active, bound) && schema.Obj?
    ensures !HasList(schema, "allOf") ==> SatAllOf(env, rank, value, schema, key, bound)
    ensures HasList(schema, "allOf") ==>
              && Located(env, schema.fields["allOf"], key)
              && var v := EvalAll(env, active, value, schema.fields["allOf"], 0, key, path);
              && !Cyclic(v) && (v.Valid? <==> SatAllOf(env, rank, value, schema, key, bound))
    decreases bound, schema, 2
  {
    hide Eval, EvalAll, Part, Ranked, Located, Above;
    if HasList(schema, "allOf") {
      ListDecides(env, rank, active, value, schema, key, bound, path, "allOf");
      AllLoop(env, active, value, schema.fields["allOf"], 0, key, path);
    }
  }

  lemma {:induction false} AnyOfDecides(
      env: Env, rank: Ranking, active: set<string>, value: Json, schema: Json, key: string, bound: nat, path: string)
    requires Ranked(env, rank, schema, key, bound) && Above(rank, active, bound) && schema.Obj?
    ensures !HasList(schema, "anyOf") ==> SatAnyOf(env, rank, value, schema, key, bound)
    ensures HasList(schema, "anyOf") ==>
              && Located(env, schema.fields["anyOf"], key)
              && var v := AnyOfVerdict(EvalBranches(env, active, value, schema.fields["anyOf"], 0, key, path), path);
              && !Cyclic(v) && (v.Valid? <==> SatAnyOf(env, rank, value, schema, key, bound))
    decreases bound, schema, 2
  {
    hide Eval, EvalBranches, AnyOfVerdict, OneOfVerdict, Part, Ranked, Located, Above;
    if HasList(schema, "anyOf") {
      ListDecides(env, rank, active, value, schema, key, bound, path, "anyOf");
      AnyBranchDecides(env, active, value, schema.fields["anyOf"], key, path);
    }
  }

  lemma {:induction false} OneOfDecides(
      env: Env, rank: Ranking, active: set<string>, value: Json, schema: Json, key: string, bound: nat, path: string)
    requires Ranked(env, rank, schema, key, bound) && Above(rank, active, bound) && schema.Obj?
    ensures !HasList(schema, "oneOf") ==> SatOneOf(env, rank, value, schema, key, bound)
    ensures HasList(schema, "oneOf") ==>
              && Located(env, schema.fields["oneOf"], key)
              && var v := OneOfVerdict(EvalBranches(env, active, value, schema.fields["oneOf"], 0, key, path), path);
              && !Cyclic(v) && (v.Valid? <==> SatOneOf(env, rank, value, schema, key, bound))
    decreases bound, schema, 2
  {
    hide Eval, EvalBranches, AnyOfVerdict, OneOfVerdict, Part, Ranked, Located, Above;
    if HasList(schema, "oneOf") {
      var list := schema.fields["oneOf"];
      ListDecides(env, rank, active, value, schema, key, bound, path, "oneOf");
      OneBranchDecides(env, active, value, list, key, path);
      assert forall i: nat :: i < |list.items| ==>
        (OnlyValid(env, active, value, list, key, path, i) <==> OnlyBranch(env, rank, value, schema, key, bound, i));
    }
  }

  lemma {:induction false} NotDecides(
      env: Env, rank: Ranking, active: set<string>, value: Json, schema: Json, key: string, bound: nat, path: string)
    requires Ranked(env, rank, schema, key, bound) && Above(rank, active, bound) && schema.Obj?
    ensures EvalNot(env, active, value, schema, key, path).Valid? <==> SatNot(env, rank, value, schema, key, bound)
    ensures !Cyclic(EvalNot(env, active, value, schema, key, path))
    decreases bound, schema, 2
  {
    hide Eval, Part, Above;
    if "not" in schema.fields {
      Child(schema, "not");
      PartDecides(env, rank, active, value, schema, key, bound, path, schema.fields["not"]);
    }
  }

  lemma {:induction false} ListsDecide(
      env: Env, rank: Ranking, active: set<string>, value: Json, schema: Json, key: string, bound: nat, path: string)
    requires Ranked(env, rank, schema, key, bound) && Above(rank, active, bound) && schema.Obj?
    ensures EvalLists(env, active, value, schema, key, path).Valid?
       <==> SatAllOf(env, rank, value, schema, key, bound) && SatAnyOf(env, rank, value, schema, key, bound)
            && SatOneOf(env, rank, value, schema, key, bound)
    ensures !Cyclic(EvalLists(env, active, value, schema, key, path))
    decreases bound, schema, 3
  {
    hide EvalAll, EvalBranches, Ranked, Located, Above, AnyOfVerdict, OneOfVerdict, SatAllOf, SatAnyOf, SatOneOf;
    RankedIsLocated(env, rank, schema, key, bound);
    AllOfDecides(env, rank, active, value, schema, key, bound, path);
    AnyOfDecides(env, rank, active, value, schema, key, bound, path);
    OneOfDecides(env, rank, active, value, schema, key, bound, path);
  }

  lemma {:induction false} CompositionsDecide(
      env: Env, rank: Ranking, active: set<string>, value: Json, schema: Json, key: string, bound: nat, path: string)
    requires Ranked(env, rank, schema, key, bound) && Above(rank, active, bound) && schema.Obj?
    ensures EvalCompositions(env, active, value, schema, key, path).Valid?
       <==> SatCompositions(env, rank, value, schema, key, bound)
    ensures !Cyclic(EvalCompositions(env, active, value, schema, key, path))
    decreases bound, schema, 4
  {
    hide EvalLists, EvalCondition, EvalNot, SatAllOf, SatAnyOf, SatOneOf, SatCondition, SatNot, Ranked, Located, Above;
    RankedIsLocated(env, rank, schema, key, bound);
    ListsDecide(env, rank, active, value, schema, key, bound, path);
    ConditionDecides(env, rank, active, value, schema, key, bound, path);
    NotDecides(env, rank, active, value, schema, key, bound, path);
  }

  lemma RankedIsLocated(env: Env, rank: Ranking, schema: Json, key: string, bound: nat)
    requires Ranked(env, rank, schema, key, bound)
    ensures Located(env, schema, key)
  {
  }

  /** Every member of a list keyword, on the same value. */
  lemma {:induction false} ListDecides(
      env: Env, rank: Ranking, active: set<string>, value: Json, schema: Json, key: string, bound: nat, path: string,
      keyword: string)
    requires Ranked(env, rank, schema, key, bound) && Above(rank, active, bound)
    requires HasList(schema, keyword) && keyword in {"allOf", "anyOf", "oneOf"}
    ensures Located(env, schema.fields[keyword], key)
    ensures forall i :: 0 <= i < |schema.fields[keyword].items| ==>
              && Located(env, schema.fields[keyword].items[i], key)
              && (Eval(env, active, value, schema.fields[keyword].items[i], key, path).Valid?
                  <==> Part(env, rank, value, schema, key, bound, schema.fields[keyword].items[i]))
              && !Cyclic(Eval(env, active, value, schema.fields[keyword].items[i], key, path))
    decreases bound, schema, 1
  {
    hide Eval, Part, Above;
    ChildLocated(env, schema, key);
    ChildLocated(env, schema.fields[keyword], key);
    forall i | 0 <= i < |schema.fields[keyword].items|
      ensures && (Eval(env, active, value, schema.fields[keyword].items[i], key, path).Valid?
                  <==> Part(env, rank, value, schema, key, bound, schema.fields[keyword].items[i]))
              && !Cyclic(Eval(env, active, value, schema.fields[keyword].items[i], key, path))
    {
      Branch(schema, keyword, i);
      PartDecides(env, rank, active, value, schema, key, bound, path, schema.fields[keyword].items[i]);
    }
  }

  /** Branch `i` is valid and no other is. */
  ghost predicate OnlyValid(env: Env, active: set<string>, value: Json, list: Json, key: string, path: string, i: nat)
    requires Located(env, list, key) && list.Arr?
    requires forall j :: 0 <= j < |list.items| ==> Located(env, list.items[j], key)
  {
    forall j :: 0 <= j < |list.items| ==> (Eval(env, active, value, list.items[j], key, path).Valid? <==> j == i)
  }

  /** The tally of the branches counts the valid ones. */
  lemma TallyCounts(env: Env, active: set<string>, value: Json, list: Json, key: string, path: string)
    returns (matching: set<nat>)
    requires Located(env, list, key) && list.Arr?
    requires forall j :: 0 <= j < |list.items| ==> Located(env, list.items[j], key)
    requires forall j :: 0 <= j < |list.items| ==> !Cyclic(Eval(env, active, value, list.items[j], key, path))
    ensures var tally := EvalBranches(env, active, value, list, 0, key, path);
            NeverCyclic(tally) && tally.matches == |matching|
    ensures forall i: nat :: i in matching <==> i < |list.items| && Eval(env, active, value, list.items[i], key, path).Valid?
  {
    hide Eval, Located, EvalBranches;
    BranchLoop(env, active, value, list, 0, key, path, Tally(0, None));
    matching := Matching(env, active, value, list, 0, key, path);
  }

  lemma AnyBranchDecides(env: Env, active: set<string>, value: Json, list: Json, key: string, path: string)
    requires Located(env, list, key) && list.Arr?
    requires forall j :: 0 <= j < |list.items| ==> Located(env, list.items[j], key)
    requires forall j :: 0 <= j < |list.items| ==> !Cyclic(Eval(env, active, value, list.items[j], key, path))
    ensures var v := AnyOfVerdict(EvalBranches(env, active, value, list, 0, key, path), path);
            && !Cyclic(v)
            && (v.Valid? <==> exists i :: 0 <= i < |list.items| && Eval(env, active, value, list.items[i], key, path).Valid?)
  {
    hide Eval, Located, EvalBranches;
    var matching := TallyCounts(env, active, value, list, key, path);
    SingleMatch(matching);
  }

  lemma OneBranchDecides(env: Env, active: set<string>, value: Json, list: Json, key: string, path: string)
    requires Located(env, list, key) && list.Arr?
    requires forall j :: 0 <= j < |list.items| ==> Located(env, list.items[j], key)
    requires forall j :: 0 <= j < |list.items| ==> !Cyclic(Eval(env, active, value, list.items[j], key, path))
    ensures var v := OneOfVerdict(EvalBranches(env, active, value, list, 0, key, path), path);
            && !Cyclic(v)
            && (v.Valid? <==> exists i: nat :: i < |list.items| && OnlyValid(env, active, value, list, key, path, i))
  {
    hide Eval, Located, EvalBranches;
    var matching := TallyCounts(env, active, value, list, key, path);
    SingleMatch(matching);
    assert forall i: nat :: i < |list.items| ==>
      (OnlyValid(env, active, value, list, key, path, i) <==> i in matching && forall j :: j in matching ==> j == i);
  }

  lemma {:induction false} ConditionDecides(
      env: Env, rank: Ranking, active: set<string>, value: Json, schema: Json, key: string, bound: nat, path: string)
    requires Ranked(env, rank, schema, key, bound) && Above(rank, active, bound) && schema.Obj?
    ensures EvalCondition(env, active, value, schema, key, path).Valid? <==> SatCondition(env, rank, value, schema, key, bound)
    ensures !Cyclic(EvalCondition(env, active, value, schema, key, path))
    decreases bound, schema, 2
  {
    hide Eval, Part, Above, Ranked, Located, Acyclic, RanksBelow;
    RankedIsLocated(env, rank, schema, key, bound);
    if "if" in schema.fields {
      ArmDecides(env, rank, active, value, schema, key, bound, path, "if");
      if "then" in schema.fields {
        ArmDecides(env, rank, active, value, schema, key, bound, path, "then");
      }
      if "else" in schema.fields {
        ArmDecides(env, rank, active, value, schema, key, bound, path, "else");
      }
    }
  }

  /** The condition or one of its two consequences. */
  lemma {:induction false} ArmDecides(
      env: Env, rank: Ranking, active: set<string>, value: Json, schema: Json, key: string, bound: nat, path: string,
      keyword: string)
    requires Ranked(env, rank, schema, key, bound) && Above(rank, active, bound) && schema.Obj?
    requires keyword in {"if", "then", "else"} && keyword in schema.fields
    ensures Located(env, schema.fields[keyword], key)
    ensures Eval(env, active, value, schema.fields[keyword], key, path).Valid?
       <==> Part(env, rank, value, schema, key, bound, schema.fields[keyword])
    ensures !Cyclic(Eval(env, active, value, schema.fields[keyword], key, path))
    decreases bound, schema, 1
  {
    hide Eval, Part, Above, Ranked;
    Child(schema, keyword);
    PartDecides(env, rank, active, value, schema, key, bound, path, schema.fields[keyword]);
  }

  lemma {:induction false} ArrayDecides(
      env: Env, rank: Ranking, active: set<string>, value: Json, schema: Json, key: string, bound: nat, path: string)
    requires Ranked(env, rank, schema, key, bound) && Above(rank, active, bound) && schema.Obj?
    ensures EvalArray(env, active, value, schema, key, path).Valid? <==> SatArray(env, rank, value, schema, key, bound)
    ensures !Cyclic(EvalArray(env, active, value, schema, key, path))
    decreases bound, schema, 4
  {
    hide Eval, Part, Above, EvalItems, EvalTuple, CountContained, CheckSize, AllowsSize, Located, RanksBelow, Acyclic;
    if value.Arr? {
      var values := value.items;
      SizeMeans(schema, values, path);
      RankedIsLocated(env, rank, schema, key, bound);
      ChildLocated(env, schema, key);
      if HasTable(schema, "items") {
        ElementsDecide(env, rank, active, values, schema, key, bound, path, "items");
        ItemsLoop(env, active, values, 0, schema.fields["items"], key, path);
      } else if HasList(schema, "items") {
        TupleDecides(env, rank, active, values, schema, key, bound, path);
        TupleLoop(env, active, values, 0, schema.fields["items"], key, path);
      }
      if "contains" in schema.fields {
        ElementsDecide(env, rank, active, values, schema, key, bound, path, "contains");
        ContainsLoop(env, active, values, 0, schema.fields["contains"], key, path);
      }
    }
  }

  lemma {:induction false} ElementsDecide(
      env: Env, rank: Ranking, active: set<string>, values: seq<Json>, schema: Json, key: string, bound: nat, path: string,
      keyword: string)
    requires Ranked(env, rank, schema, key, bound) && Above(rank, active, bound) && schema.Obj? && keyword in schema.fields
    requires keyword == "contains" || (keyword == "items" && schema.fields[keyword].Obj?)
    ensures Located(env, schema.fields[keyword], key)
    ensures forall i, p :: 0 <= i < |values| && p in {path, IndexPath(path, i)} ==>
              && (Eval(env, active, values[i], schema.fields[keyword], key, p).Valid?
                  <==> Part(env, rank, values[i], schema, key, bound, schema.fields[keyword]))
              && !Cyclic(Eval(env, active, values[i], schema.fields[keyword], key, p))
    decreases bound, schema, 1
  {
    hide Eval, Part, Above;
    ChildLocated(env, schema, key);
    Child(schema, keyword);
    forall i, p | 0 <= i < |values| && p in {path, IndexPath(path, i)}
      ensures && (Eval(env, active, values[i], schema.fields[keyword], key, p).Valid?
                  <==> Part(env, rank, values[i], schema, key, bound, schema.fields[keyword]))
              && !Cyclic(Eval(env, active, values[i], schema.fields[keyword], key, p))
    {
      PartDecides(env, rank, active, values[i], schema, key, bound, p, schema.fields[keyword]);
    }
  }

  lemma {:induction false} TupleDecides(
      env: Env, rank: Ranking, active: set<string>, values: seq<Json>, schema: Json, key: string, bound: nat, path: string)
    requires Ranked(env, rank, schema, key, bound) && Above(rank, active, bound) && HasList(schema, "items")
    ensures Located(env, schema.fields["items"], key)
    ensures forall i :: 0 <= i < |schema.fields["items"].items| ==> Located(env, schema.fields["items"].items[i], key)
    ensures forall i :: 0 <= i < |values| && i < |schema.fields["items"].items| ==>
              && (Eval(env, active, values[i], schema.fields["items"].items[i], key, IndexPath(path, i)).Valid?
                  <==> Part(env, rank, values[i], schema, key, bound, schema.fields["items"].items[i]))
              && !Cyclic(Eval(env, active, values[i], schema.fields["items"].items[i], key, IndexPath(path, i)))
    decreases bound, schema, 1
  {
    hide Eval, Part, Above, IndexPath;
    ChildLocated(env, schema, key);
    ChildLocated(env, schema.fields["items"], key);
    forall i | 0 <= i < |values| && i < |schema.fields["items"].items|
      ensures && (Eval(env, active, values[i], schema.fields["items"].items[i], key, IndexPath(path, i)).Valid?
                  <==> Part(env, rank, values[i], schema, key, bound, schema.fields["items"].items[i]))
              && !Cyclic(Eval(env, active, values[i], schema.fields["items"].items[i], key, IndexPath(path, i)))
    {
      Branch(schema, "items", i);
      PartDecides(env, rank, active, values[i], schema, key, bound, IndexPath(path, i), schema.fields["items"].items[i]);
    }
  }

  lemma {:induction false} ObjectDecides(
      env: Env, rank: Ranking, active: set<string>, value: Json, schema: Json, key: string, bound: nat, path: string)
    requires Ranked(env, rank, schema, key, bound) && Above(rank, active, bound) && schema.Obj?
    ensures EvalObject(env, active, value, schema, key, path).Valid? <==> SatObject(env, rank, value, schema, key, bound)
    ensures !Cyclic(EvalObject(env, active, value, schema, key, path))
    decreases bound, schema, 4
  {
    hide Eval, Part, Above, EvalDeclared, EvalOpen, CheckMembers, AllowsMembers, Located, RanksBelow, Acyclic, Declared, Finds;
    if value.Obj? {
      MembersMean(schema, value.fields, path);
      DeclaredDecides(env, rank, active, value.fields, schema, key, bound, path);
      OpenDecides(env, rank, active, value.fields, schema, key, bound, path);
    }
  }

  lemma DeclaredMeans(env: Env, schema: Json)
    ensures forall name :: Covered(env, schema, name) <==> Declared(env, schema, name)
    ensures forall pattern, text :: env.Matches(pattern, text) <==> Finds(env, pattern, text)
  {
    forall name ensures Covered(env, schema, name) <==> Declared(env, schema, name) {
      if Declared(env, schema, name) && HasTable(schema, "patternProperties") {
        if p :| p in schema.fields["patternProperties"].fields && Finds(env, p, name) {
          assert env.Matches(p, name);
        }
      }
    }
  }

  lemma {:induction false} NamesDecide(
      env: Env, rank: Ranking, active: set<string>, fields: map<string, Json>, schema: Json, key: string, bound: nat,
      path: string)
    requires Ranked(env, rank, schema, key, bound) && Above(rank, active, bound)
    requires schema.Obj? && "propertyNames" in schema.fields
    ensures var nameSchema := schema.fields["propertyNames"];
            && Located(env, nameSchema, key)
            && var v := EvalNames(env, active, NamesOf(fields), nameSchema, key, path);
            && !Cyclic(v)
            && (v.Valid? <==> forall name :: name in fields ==> Part(env, rank, Str(name), schema, key, bound, nameSchema))
    decreases bound, schema, 2
  {
    hide Eval, Part, Above, EvalNames, PropertyPath, RanksBelow, Acyclic;
    ChildLocated(env, schema, key);
    var nameSchema := schema.fields["propertyNames"];
    Child(schema, "propertyNames");
    forall name | name in fields
      ensures && (Eval(env, active, Str(name), nameSchema, key, PropertyPath(path, name)).Valid?
                  <==> Part(env, rank, Str(name), schema, key, bound, nameSchema))
              && !Cyclic(Eval(env, active, Str(name), nameSchema, key, PropertyPath(path, name)))
    {
      PartDecides(env, rank, active, Str(name), schema, key, bound, PropertyPath(path, name), nameSchema);
    }
    NamesLoop(env, active, NamesOf(fields), nameSchema, key, path);
  }

  lemma {:induction false} PropertiesDecide(
      env: Env, rank: Ranking, active: set<string>, fields: map<string, Json>, schema: Json, key: string, bound: nat,
      path: string)
    requires Ranked(env, rank, schema, key, bound) && Above(rank, active, bound) && HasTable(schema, "properties")
    ensures var properties := schema.fields["properties"];
            && Located(env, properties, key)
            && var v := EvalProperties(env, active, fields, NamesOf(properties.fields), properties, key, path);
            && !Cyclic(v)
            && (v.Valid? <==> forall name :: name in properties.fields && name in fields ==>
                  Part(env, rank, fields[name], schema, key, bound, properties.fields[name]))
    decreases bound, schema, 2
  {
    hide Eval, Part, Above, EvalProperties, PropertyPath, RanksBelow, Acyclic;
    ChildLocated(env, schema, key);
    var properties := schema.fields["properties"];
    ChildLocated(env, properties, key);
    forall name | name in properties.fields && name in fields
      ensures && (Eval(env, active, fields[name], properties.fields[name], key, PropertyPath(path, name)).Valid?
                  <==> Part(env, rank, fields[name], schema, key, bound, properties.fields[name]))
              && !Cyclic(Eval(env, active, fields[name], properties.fields[name], key, PropertyPath(path, name)))
    {
      Entry(schema, "properties", name);
      PartDecides(env, rank, active, fields[name], schema, key, bound, PropertyPath(path, name), properties.fields[name]);
    }
    PropertiesLoop(env, active, fields, NamesOf(properties.fields), properties, key, path);
  }

  lemma {:induction false} DeclaredDecides(
      env: Env, rank: Ranking, active: set<string>, fields: map<string, Json>, schema: Json, key: string, bound: nat,
      path: string)
    requires Ranked(env, rank, schema, key, bound) && Above(rank, active, bound) && schema.Obj?
    ensures !Cyclic(EvalDeclared(env, active, fields, schema, key, path))
    ensures EvalDeclared(env, active, fields, schema, key, path).Valid? <==>
              && ("propertyNames" in schema.fields ==>
                    forall name :: name in fields ==>
                      Part(env, rank, Str(name), schema, key, bound, schema.fields["propertyNames"]))
              && (HasTable(schema, "properties") ==>
                    forall name :: name in schema.fields["properties"].fields && name in fields ==>
                      Part(env, rank, fields[name], schema, key, bound, schema.fields["properties"].fields[name]))
    decreases bound, schema, 3
  {
    hide Eval, Part, Above, EvalNames, EvalProperties, Located, RanksBelow, Acyclic;
    RankedIsLocated(env, rank, schema, key, bound);
    if "propertyNames" in schema.fields {
      NamesDecide(env, rank, active, fields, schema, key, bound, path);
    }
    if HasTable(schema, "properties") {
      PropertiesDecide(env, rank, active, fields, schema, key, bound, path);
    }
  }

  lemma {:induction false} OpenDecides(
      env: Env, rank: Ranking, active: set<string>, fields: map<string, Json>, schema: Json, key: string, bound: nat,
      path: string)
    requires Ranked(env, rank, schema, key, bound) && Above(rank, active, bound) && schema.Obj?
    ensures !Cyclic(EvalOpen(env, active, fields, schema, key, path))
    ensures EvalOpen(env, active, fields, schema, key, path).Valid? <==>
              && (IsTable(schema, "patternProperties") ==>
                    forall pattern :: pattern in schema.fields["patternProperties"].fields ==>
                      env.isPattern(pattern)
                      && forall name :: name in fields && Finds(env, pattern, name) ==>
                           Part(env, rank, fields[name], schema, key, bound, schema.fields["patternProperties"].fields[pattern]))
              && ("additionalProperties" in schema.fields ==>
                    forall name :: name in fields && !Declared(env, schema, name) ==>
                      schema.fields["additionalProperties"] == Bool(true)
                      || (schema.fields["additionalProperties"].Obj?
                          && Part(env, rank, fields[name], schema, key, bound, schema.fields["additionalProperties"])))
    decreases bound, schema, 3
  {
    hide Eval, Part, Above, EvalPatterns, EvalAdditional, Covered, Declared, Located, RanksBelow, Acyclic, Env.Matches, Finds;
    RankedIsLocated(env, rank, schema, key, bound);
    DeclaredMeans(env, schema);
    if HasTable(schema, "patternProperties") {
      PatternsDecide(env, rank, active, fields, schema, key, bound, path);
    }
    if "additionalProperties" in schema.fields {
      AdditionalDecides(env, rank, active, fields, schema, key, bound, path);
    }
  }

  lemma {:induction false} AdditionalDecides(
      env: Env, rank: Ranking, active: set<string>, fields: map<string, Json>, schema: Json, key: string, bound: nat,
      path: string)
    requires Ranked(env, rank, schema, key, bound) && Above(rank, active, bound)
    requires schema.Obj? && "additionalProperties" in schema.fields
    ensures var v := EvalAdditional(env, active, fields, NamesOf(fields), schema, key, path);
            var additional := schema.fields["additionalProperties"];
            && !Cyclic(v)
            && (v.Valid? <==>
                forall name :: name in fields && !Covered(env, schema, name) ==>
                  additional == Bool(true)
                  || (additional.Obj? && Part(env, rank, fields[name], schema, key, bound, additional)))
    decreases bound, schema, 2
  {
    hide Eval, Part, Above, EvalAdditional, PropertyPath, Covered, RanksBelow, Acyclic;
    ChildLocated(env, schema, key);
    var additional := schema.fields["additionalProperties"];
    Child(schema, "additionalProperties");
    forall name | name in fields
      ensures && (Eval(env, active, fields[name], additional, key, PropertyPath(path, name)).Valid?
                  <==> Part(env, rank, fields[name], schema, key, bound, additional))
              && !Cyclic(Eval(env, active, fields[name], additional, key, PropertyPath(path, name)))
    {
      PartDecides(env, rank, active, fields[name], schema, key, bound, PropertyPath(path, name), additional);
    }
    AdditionalLoop(env, active, fields, NamesOf(fields), schema, key, path);
  }

  lemma {:induction false} PatternsDecide(
      env: Env, rank: Ranking, active: set<string>, fields: map<string, Json>, schema: Json, key: string, bound: nat,
      path: string)
    requires Ranked(env, rank, schema, key, bound) && Above(rank, active, bound) && HasTable(schema, "patternProperties")
    ensures Located(env, schema.fields["patternProperties"], key)
    ensures var patterns := schema.fields["patternProperties"];
            var v := EvalPatterns(env, active, fields, NamesOf(patterns.fields), patterns, key, path);
            && !Cyclic(v)
            && (v.Valid? <==>
                forall pattern :: pattern in patterns.fields ==>
                  env.isPattern(pattern)
                  && forall name :: name in fields && env.Matches(pattern, name) ==>
                       Part(env, rank, fields[name], schema, key, bound, patterns.fields[pattern]))
    decreases bound, schema, 1
  {
    hide Eval, Part, Above, EvalPatterns, EvalMatching, PropertyPath, Located, RanksBelow, Acyclic;
    RankedIsLocated(env, rank, schema, key, bound);
    ChildLocated(env, schema, key);
    var patterns := schema.fields["patternProperties"];
    ChildLocated(env, patterns, key);
    forall pattern | pattern in patterns.fields
      ensures var v := EvalMatching(env, active, fields, NamesOf(fields), pattern, patterns.fields[pattern], key, path);
              && !Cyclic(v)
              && (v.Valid? <==> forall name :: name in fields && env.Matches(pattern, name) ==>
                    Part(env, rank, fields[name], schema, key, bound, patterns.fields[pattern]))
    {
      var part := patterns.fields[pattern];
      Entry(schema, "patternProperties", pattern);
      forall name | name in fields
        ensures && (Eval(env, active, fields[name], part, key, PropertyPath(path, name)).Valid?
                    <==> Part(env, rank, fields[name], schema, key, bound, part))
                && !Cyclic(Eval(env, active, fields[name], part, key, PropertyPath(path, name)))
      {
        PartDecides(env, rank, active, fields[name], schema, key, bound, PropertyPath(path, name), part);
      }
      MatchingLoop(env, active, fields, NamesOf(fields), pattern, part, key, path);
    }
    PatternsLoop(env, active, fields, NamesOf(patterns.fields), patterns, key, path);
  }
}
