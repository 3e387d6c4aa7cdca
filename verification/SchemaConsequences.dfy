/** What the refinement of the evaluator buys, and what happens on the cyclic closures it leaves out. */
module SchemaConsequences {
  import opened Prelude
  import opened Strings
  import opened SchemaEvaluator
  import opened SchemaMeaning
  import opened SchemaRefinement

  /** Satisfaction is a property of the schemas: the ranking only witnesses that they are not cyclic. */
  lemma SatIgnoresRanking(
      env: Env, r1: Ranking, b1: nat, r2: Ranking, b2: nat, value: Json, schema: Json, key: string)
    requires Ranked(env, r1, schema, key, b1) && Ranked(env, r2, schema, key, b2)
    ensures Sat(env, r1, value, schema, key, b1) <==> Sat(env, r2, value, schema, key, b2)
  {
    hide Sat, Ranked, Eval;
    EvalDecidesSat(env, r1, {}, value, schema, key, b1, "");
    EvalDecidesSat(env, r2, {}, value, schema, key, b2, "");
  }

  /**
   * If no chain of references from the schema is cyclic, the path only labels errors, and the references
   * that are already active cannot change the outcome, as long as they are out of reach: not ranked at
   * all, or not below the bound of the schema.
   */
  lemma OutcomeIgnoresContext(
      env: Env, rank: Ranking, value: Json, schema: Json, key: string, bound: nat,
      a1: set<string>, p1: string, a2: set<string>, p2: string)
    requires Ranked(env, rank, schema, key, bound) && Above(rank, a1, bound) && Above(rank, a2, bound)
    ensures Eval(env, a1, value, schema, key, p1).Valid? <==> Eval(env, a2, value, schema, key, p2).Valid?
  {
    hide Sat, Ranked, Eval, Above;
    EvalDecidesSat(env, rank, a1, value, schema, key, bound, p1);
    EvalDecidesSat(env, rank, a2, value, schema, key, bound, p2);
  }

  const SELF := Obj(map["$ref" := Str("#")])
  const NOT_SELF := Obj(map["not" := SELF])

  lemma SelfResolves(env: Env, key: string)
    requires key in env.resources
    ensures ResolveReference(env, key, "#") == Ok((key, env.resources[key]))
  {
    assert "#"[1..] == "";
    assert SplitOnce("#", '#') == Some(("", ""));
  }

  lemma OneKeyword(keyword: string, value: Json, path: string)
    requires keyword in SUPPORTED
    ensures CheckKeywords(Obj(map[keyword := value]), path) == Valid
  {
    var names := NamesOf(map[keyword := value]);
    assert keyword in names;
    assert forall i :: 0 <= i < |names| ==> names[i] == keyword;
    assert (map[keyword := value]).Keys == {keyword} && |names| == |{keyword}|;
    assert names == [keyword];
    assert UnsupportedKeywords(names[1..]) == None;
  }

  /** Neither schema has a keyword that concerns scalars, arrays or objects. */
  ghost predicate Bare(schema: Json) {
    schema.Obj? && schema.fields.Keys <= {"$ref", "not"}
  }

  lemma BareLocal(env: Env, value: Json, schema: Json, path: string)
    requires Bare(schema)
    ensures CheckLocal(env, schema, value, path) == Valid && CheckNumber(schema, value, path) == Valid
  {
  }

  lemma BareArray(env: Env, active: set<string>, value: Json, schema: Json, key: string, path: string)
    requires Located(env, schema, key) && Bare(schema)
    ensures EvalArray(env, active, value, schema, key, path) == Valid
  {
    hide Eval, Located;
  }

  lemma BareObject(env: Env, active: set<string>, value: Json, schema: Json, key: string, path: string)
    requires Located(env, schema, key) && Bare(schema)
    ensures EvalObject(env, active, value, schema, key, path) == Valid
  {
    hide Eval, Located, EvalDeclared, EvalOpen;
    if value.Obj? {
      BareMembers(env, active, value.fields, schema, key, path);
    }
  }

  lemma BareMembers(env: Env, active: set<string>, fields: map<string, Json>, schema: Json, key: string, path: string)
    requires Located(env, schema, key) && Bare(schema)
    ensures EvalDeclared(env, active, fields, schema, key, path) == Valid
    ensures EvalOpen(env, active, fields, schema, key, path) == Valid
  {
    hide Eval, Located, EvalNames, EvalProperties, EvalPatterns, EvalAdditional, NamesOf;
  }

  lemma NothingElse(env: Env, active: set<string>, value: Json, schema: Json, key: string, path: string)
    requires Located(env, schema, key) && Bare(schema)
    ensures CheckLocal(env, schema, value, path) == Valid && CheckNumber(schema, value, path) == Valid
    ensures EvalArray(env, active, value, schema, key, path) == Valid
    ensures EvalObject(env, active, value, schema, key, path) == Valid
  {
    hide CheckLocal, CheckNumber, EvalArray, EvalObject, Located, Bare;
    BareLocal(env, value, schema, path);
    BareArray(env, active, value, schema, key, path);
    BareObject(env, active, value, schema, key, path);
  }

  /**
   * Why the refinement asks for acyclic closures: on `{"not": {"$ref": "#"}}` the error inside the probe
   * is read as a mismatch, so that the same value fails from no active references and passes from one.
   */
  lemma CycleInsideProbeFlipsOutcome(env: Env, key: string, value: Json, path: string)
    requires key in env.resources && env.resources[key] == NOT_SELF
    ensures Located(env, NOT_SELF, key)
    ensures Eval(env, {}, value, NOT_SELF, key, path) == Invalid(path, ProhibitedMatch)
    ensures Eval(env, {ReferenceKey(key, "#")}, value, NOT_SELF, key, path) == Valid
  {
    var name := ReferenceKey(key, "#");
    InPlace(env, key);
    hide Eval, Located;
    assert {} + {name} == {name};
    OnlyNot(env, {name}, value, key, path);
    OnlyNot(env, {}, value, key, path);
    OnlyReference(env, {name}, value, key, path);
    OnlyReference(env, {}, value, key, path);
  }

  lemma InPlace(env: Env, key: string)
    requires key in env.resources && env.resources[key] == NOT_SELF
    ensures Located(env, NOT_SELF, key) && Located(env, SELF, key)
  {
    ChildLocated(env, NOT_SELF, key);
    assert "not" in NOT_SELF.fields && NOT_SELF.fields["not"] == SELF;
  }

  lemma OnlyNot(env: Env, active: set<string>, value: Json, key: string, path: string)
    requires key in env.resources && env.resources[key] == NOT_SELF
    ensures Located(env, NOT_SELF, key) && Located(env, SELF, key)
    ensures Eval(env, active, value, NOT_SELF, key, path)
         == if Eval(env, active, value, SELF, key, path).Valid? then Invalid(path, ProhibitedMatch) else Valid
  {
    InPlace(env, key);
    hide EvalArray, EvalObject, CheckKeywords, CheckLocal, CheckNumber, Located, EvalReference;
    OneKeyword("not", SELF, path);
    NothingElse(env, active, value, NOT_SELF, key, path);
    NoReference(env, active, value, key, path);
    OnlyNotComposition(env, active, value, key, path);
  }

  lemma NoReference(env: Env, active: set<string>, value: Json, key: string, path: string)
    requires Located(env, NOT_SELF, key)
    ensures EvalReference(env, active, value, NOT_SELF, key, path) == Valid
  {
  }

  lemma OnlyNotComposition(env: Env, active: set<string>, value: Json, key: string, path: string)
    requires Located(env, NOT_SELF, key) && Located(env, SELF, key)
    ensures EvalCompositions(env, active, value, NOT_SELF, key, path)
         == if Eval(env, active, value, SELF, key, path).Valid? then Invalid(path, ProhibitedMatch) else Valid
  {
    hide Eval;
  }

  lemma OnlyReference(env: Env, active: set<string>, value: Json, key: string, path: string)
    requires key in env.resources && env.resources[key] == NOT_SELF
    ensures Located(env, NOT_SELF, key) && Located(env, SELF, key)
    ensures ReferenceKey(key, "#") in active ==> Eval(env, active, value, SELF, key, path) == Invalid(path, CyclicReference)
    ensures ReferenceKey(key, "#") !in active ==>
              Eval(env, active, value, SELF, key, path).Valid?
              == Eval(env, active + {ReferenceKey(key, "#")}, value, NOT_SELF, key, path).Valid?
  {
    InPlace(env, key);
    hide EvalReference, EvalCompositions, EvalArray, EvalObject, CheckKeywords, CheckLocal, CheckNumber, Located;
    OneKeyword("$ref", Str("#"), path);
    NothingElse(env, active, value, SELF, key, path);
    NoComposition(env, active, value, key, path);
    FollowsSelf(env, active, value, key, path);
  }

  lemma FollowsSelf(env: Env, active: set<string>, value: Json, key: string, path: string)
    requires Located(env, NOT_SELF, key) && Located(env, SELF, key) && env.resources[key] == NOT_SELF
    ensures EvalReference(env, active, value, SELF, key, path)
         == if ReferenceKey(key, "#") in active then Invalid(path, CyclicReference)
            else Eval(env, active + {ReferenceKey(key, "#")}, value, NOT_SELF, key, path)
  {
    hide Eval, ResolveReference, References, ReferenceKey;
    SelfResolves(env, key);
  }

  lemma NoComposition(env: Env, active: set<string>, value: Json, key: string, path: string)
    requires Located(env, SELF, key)
    ensures EvalCompositions(env, active, value, SELF, key, path) == Valid
  {
    hide Eval;
  }
}
