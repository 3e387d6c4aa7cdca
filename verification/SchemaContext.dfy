/**
 * The evaluator as the program runs it: a context whose set of active references is inserted into
 * and removed from, probes that work on a copy of it, and loops that stop at the first failure.
 */
module SchemaContext {
  import opened Prelude
  import opened SchemaEvaluator

  class Context {
    const env: Env
    var active: set<string>

    constructor (env: Env, active: set<string>)
      ensures this.env == env && this.active == active
    {
      this.env := env;
      this.active := active;
    }

    /** One value against one schema.  A successful validation leaves the active references as they were. */
    method Validate(value: Json, schema: Json, key: string, path: string) returns (v: Verdict)
      requires Located(env, schema, key)
      modifies this
      ensures v == Eval(env, old(active), value, schema, key, path)
      ensures v.Valid? ==> active == old(active)
      decreases Idle(env, active), schema, 9, 0
    {
      if !schema.Obj? {
        return Invalid(path, SchemaNotAnObject);
      }
      :- CheckKeywords(schema, path);
      :- ValidateReference(value, schema, key, path);
      :- ValidateCompositions(value, schema, key, path);
      :- CheckLocal(env, schema, value, path);
      :- ValidateArray(value, schema, key, path);
      :- ValidateObject(value, schema, key, path);
      return CheckNumber(schema, value, path);
    }

    method ValidateReference(value: Json, schema: Json, key: string, path: string) returns (v: Verdict)
      requires Located(env, schema, key)
      modifies this
      ensures v == EvalReference(env, old(active), value, schema, key, path)
      ensures v.Valid? ==> active == old(active)
      decreases Idle(env, active), schema, 8, 0
    {
      var reference := Text(schema.Get("$ref"));
      if reference.None? {
        return Valid;
      }
      var name := ReferenceKey(key, reference.value);
      if name in active {
        return Invalid(path, CyclicReference);
      }
      hide Eval, References, Located, Idle, ReferenceKey;
      ActivationProgress(env, active, schema, key);
      assert active + {name} - {name} == active;
      active := active + {name};
      hide ResolveReference;
      var target := FollowReference(env, key, reference.value);
      match target
      case Err(reason) => return Invalid(path, reason);
      case Ok((targetKey, targetSchema)) =>
        ResolvedIsLocated(env, key, reference.value);
        v := Validate(value, targetSchema, targetKey, path);
        active := active - {name};
    }

    method ValidateCompositions(value: Json, schema: Json, key: string, path: string) returns (v: Verdict)
      requires Located(env, schema, key) && schema.Obj?
      modifies this
      ensures v == EvalCompositions(env, old(active), value, schema, key, path)
      ensures v.Valid? ==> active == old(active)
      decreases Idle(env, active), schema, 8, 0
    {
      hide EvalLists, EvalCondition, EvalNot, Located;
      :- ValidateLists(value, schema, key, path);
      :- ValidateCondition(value, schema, key, path);
      v := ValidateNot(value, schema, key, path);
    }

    method ValidateLists(value: Json, schema: Json, key: string, path: string) returns (v: Verdict)
      requires Located(env, schema, key) && schema.Obj?
      modifies this
      ensures v == EvalLists(env, old(active), value, schema, key, path)
      ensures v.Valid? ==> active == old(active)
      decreases Idle(env, active), schema, 7, 0
    {
      hide Eval, EvalAll, EvalBranches, Located, References;
      ChildLocated(env, schema, key);
      if HasList(schema, "allOf") {
        :- ValidateAll(value, schema.fields["allOf"], key, path);
      }
      if HasList(schema, "anyOf") {
        :- ValidateAnyOf(value, schema.fields["anyOf"], key, path, false);
      }
      if HasList(schema, "oneOf") {
        :- ValidateAnyOf(value, schema.fields["oneOf"], key, path, true);
      }
      return Valid;
    }

    method ValidateNot(value: Json, schema: Json, key: string, path: string) returns (v: Verdict)
      requires Located(env, schema, key) && schema.Obj?
      modifies this
      ensures v == EvalNot(env, old(active), value, schema, key, path)
      ensures active == old(active)
      decreases Idle(env, active), schema, 7, 0
    {
      hide Eval, Located, References;
      ChildLocated(env, schema, key);
      if "not" in schema.fields {
        var probe := new Context(env, active);
        var matched := probe.Validate(value, schema.fields["not"], key, path);
        if matched.Valid? {
          return Invalid(path, ProhibitedMatch);
        }
      }
      return Valid;
    }

    method ValidateAll(value: Json, list: Json, key: string, path: string) returns (v: Verdict)
      requires Located(env, list, key) && list.Arr?
      modifies this
      ensures v == EvalAll(env, old(active), value, list, 0, key, path)
      ensures v.Valid? ==> active == old(active)
      decreases Idle(env, active), list, 1, 0
    {
      hide Eval, Located;
      ChildLocated(env, list, key);
      for i := 0 to |list.items|
        invariant active == old(active)
        invariant EvalAll(env, active, value, list, 0, key, path) == EvalAll(env, active, value, list, i, key, path)
      {
        :- Validate(value, list.items[i], key, path);
      }
      return Valid;
    }

    method ValidateAnyOf(value: Json, list: Json, key: string, path: string, exactlyOne: bool) returns (v: Verdict)
      requires Located(env, list, key) && list.Arr?
      modifies this
      ensures active == old(active)
      ensures var tally := EvalBranches(env, old(active), value, list, 0, key, path);
              v == if exactlyOne then OneOfVerdict(tally, path) else AnyOfVerdict(tally, path)
      decreases Idle(env, active), list, 1, 0
    {
      hide Eval, Located, References;
      ChildLocated(env, list, key);
      var matches, firstError := 0, None;
      for i := 0 to |list.items|
        invariant active == old(active)
        invariant EvalBranches(env, active, value, list, 0, key, path)
               == EvalBranches(env, active, value, list, i, key, path, Tally(matches, firstError))
      {
        ghost var tally := Tally(matches, firstError);
        BranchStep(env, active, value, list, i, key, path, tally);
        var probe := new Context(env, active);
        var branch := probe.Validate(value, list.items[i], key, path);
        if branch.Valid? {
          matches := matches + 1;
        } else if firstError.None? {
          firstError := Some(branch);
        }
      }
      if exactlyOne {
        return if matches == 1 then Valid else Invalid(path, NotExactlyOneBranch);
      }
      return if matches > 0 then Valid else if firstError.Some? then firstError.value else Invalid(path, NoBranchMatches);
    }

    /** One more branch of a composition. */
    static lemma BranchStep(
        env: Env, active: set<string>, value: Json, list: Json, i: nat, key: string, path: string, tally: Tally)
      requires Located(env, list, key) && list.Arr? && i < |list.items| && Located(env, list.items[i], key)
      ensures EvalBranches(env, active, value, list, i, key, path, tally)
           == EvalBranches(env, active, value, list, i + 1, key, path,
                           Count(tally, Eval(env, active, value, list.items[i], key, path)))
    {
      hide Eval, Located, References;
    }

    method ValidateCondition(value: Json, schema: Json, key: string, path: string) returns (v: Verdict)
      requires Located(env, schema, key) && schema.Obj?
      modifies this
      ensures v == EvalCondition(env, old(active), value, schema, key, path)
      ensures v.Valid? ==> active == old(active)
      decreases Idle(env, active), schema, 7, 0
    {
      hide Eval, Located, References;
      ChildLocated(env, schema, key);
      if "if" !in schema.fields {
        return Valid;
      }
      var probe := new Context(env, active);
      var condition := probe.Validate(value, schema.fields["if"], key, path);
      var selected := if condition.Valid? then "then" else "else";
      if selected !in schema.fields {
        return Valid;
      }
      v := Validate(value, schema.fields[selected], key, path);
    }

    method ValidateArray(value: Json, schema: Json, key: string, path: string) returns (v: Verdict)
      requires Located(env, schema, key) && schema.Obj?
      modifies this
      ensures v == EvalArray(env, old(active), value, schema, key, path)
      ensures v.Valid? ==> active == old(active)
      decreases Idle(env, active), schema, 8, 0
    {
      hide Eval, EvalItems, EvalTuple, CountContained, Located, References;
      if !value.Arr? {
        return Valid;
      }
      ChildLocated(env, schema, key);
      :- CheckSize(schema, value.items, path);
      if "items" in schema.fields {
        var items := schema.fields["items"];
        match items {
          case Obj(_) => :- ValidateItems(value.items, items, key, path);
          case Arr(_) => :- ValidateTuple(value.items, items, key, path);
          case _ => return Invalid(path, ItemsKeywordInvalid);
        }
      }
      if "contains" in schema.fields {
        var matches := CountMatching(value.items, schema.fields["contains"], key, path);
        if matches == 0 {
          return Invalid(path, NothingContained);
        }
      }
      return Valid;
    }

    method ValidateItems(values: seq<Json>, items: Json, key: string, path: string) returns (v: Verdict)
      requires Located(env, items, key)
      modifies this
      ensures v == EvalItems(env, old(active), values, 0, items, key, path)
      ensures v.Valid? ==> active == old(active)
      decreases Idle(env, active), items, 11, 0
    {
      hide Eval, Located;
      for i := 0 to |values|
        invariant active == old(active)
        invariant EvalItems(env, active, values, 0, items, key, path) == EvalItems(env, active, values, i, items, key, path)
      {
        :- Validate(values[i], items, key, IndexPath(path, i));
      }
      return Valid;
    }

    method ValidateTuple(values: seq<Json>, tuple: Json, key: string, path: string) returns (v: Verdict)
      requires Located(env, tuple, key) && tuple.Arr?
      modifies this
      ensures v == EvalTuple(env, old(active), values, 0, tuple, key, path)
      ensures v.Valid? ==> active == old(active)
      decreases Idle(env, active), tuple, 11, 0
    {
      hide Eval, Located;
      ChildLocated(env, tuple, key);
      for i := 0 to |values|
        invariant active == old(active)
        invariant EvalTuple(env, active, values, 0, tuple, key, path) == EvalTuple(env, active, values, i, tuple, key, path)
      {
        if i < |tuple.items| {
          :- Validate(values[i], tuple.items[i], key, IndexPath(path, i));
        }
      }
      return Valid;
    }

    method CountMatching(values: seq<Json>, contains: Json, key: string, path: string) returns (matches: nat)
      requires Located(env, contains, key)
      modifies this
      ensures matches == CountContained(env, old(active), values, 0, contains, key, path)
      ensures active == old(active)
      decreases Idle(env, active), contains, 11, 0
    {
      hide Eval, Located, Idle;
      matches := 0;
      for i := 0 to |values|
        invariant active == old(active)
        invariant CountContained(env, active, values, 0, contains, key, path)
               == matches + CountContained(env, active, values, i, contains, key, path)
      {
        var probe := new Context(env, active);
        var matched := probe.Validate(values[i], contains, key, path);
        if matched.Valid? {
          matches := matches + 1;
        }
      }
    }

    method ValidateObject(value: Json, schema: Json, key: string, path: string) returns (v: Verdict)
      requires Located(env, schema, key) && schema.Obj?
      modifies this
      ensures v == EvalObject(env, old(active), value, schema, key, path)
      ensures v.Valid? ==> active == old(active)
      decreases Idle(env, active), schema, 8, 0
    {
      if !value.Obj? {
        return Valid;
      }
      :- CheckMembers(schema, value.fields, path);
      :- ValidateDeclared(value.fields, schema, key, path);
      v := ValidateOpen(value.fields, schema, key, path);
    }

    method ValidateDeclared(fields: map<string, Json>, schema: Json, key: string, path: string) returns (v: Verdict)
      requires Located(env, schema, key) && schema.Obj?
      modifies this
      ensures v == EvalDeclared(env, old(active), fields, schema, key, path)
      ensures v.Valid? ==> active == old(active)
      decreases Idle(env, active), schema, 7, 0
    {
      hide Eval, EvalNames, EvalProperties, Located, References;
      ChildLocated(env, schema, key);
      if "propertyNames" in schema.fields {
        :- ValidateNames(NamesOf(fields), schema.fields["propertyNames"], key, path);
      }
      if HasTable(schema, "properties") {
        var properties := schema.fields["properties"];
        :- ValidateProperties(fields, NamesOf(properties.fields), properties, key, path);
      }
      return Valid;
    }

    method ValidateNames(names: seq<string>, schema: Json, key: string, path: string) returns (v: Verdict)
      requires Located(env, schema, key)
      modifies this
      ensures v == EvalNames(env, old(active), names, schema, key, path)
      ensures v.Valid? ==> active == old(active)
      decreases Idle(env, active), schema, 11, 0
    {
      hide Eval, Located;
      assert names[0..] == names;
      for i := 0 to |names|
        invariant active == old(active)
        invariant EvalNames(env, active, names, schema, key, path) == EvalNames(env, active, names[i..], schema, key, path)
      {
        assert names[i..][1..] == names[i + 1..];
        :- Validate(Str(names[i]), schema, key, PropertyPath(path, names[i]));
      }
      return Valid;
    }

    method ValidateProperties(
        fields: map<string, Json>, names: seq<string>, properties: Json, key: string, path: string) returns (v: Verdict)
      requires Located(env, properties, key) && properties.Obj? && Within(names, properties.fields)
      modifies this
      ensures v == EvalProperties(env, old(active), fields, names, properties, key, path)
      ensures v.Valid? ==> active == old(active)
      decreases Idle(env, active), properties, 1, 0
    {
      hide Eval, Located;
      ChildLocated(env, properties, key);
      assert names[0..] == names;
      for i := 0 to |names|
        invariant active == old(active)
        invariant EvalProperties(env, active, fields, names, properties, key, path)
               == EvalProperties(env, active, fields, names[i..], properties, key, path)
      {
        assert names[i..][1..] == names[i + 1..];
        if names[i] in fields {
          :- Validate(fields[names[i]], properties.fields[names[i]], key, PropertyPath(path, names[i]));
        }
      }
      return Valid;
    }

    method ValidateOpen(fields: map<string, Json>, schema: Json, key: string, path: string) returns (v: Verdict)
      requires Located(env, schema, key) && schema.Obj?
      modifies this
      ensures v == EvalOpen(env, old(active), fields, schema, key, path)
      ensures v.Valid? ==> active == old(active)
      decreases Idle(env, active), schema, 7, 0
    {
      hide Eval, EvalPatterns, EvalAdditional, Located, References;
      ChildLocated(env, schema, key);
      if HasTable(schema, "patternProperties") {
        var patterns := schema.fields["patternProperties"];
        :- ValidatePatterns(fields, NamesOf(patterns.fields), patterns, key, path);
      }
      if "additionalProperties" in schema.fields {
        :- ValidateAdditional(fields, NamesOf(fields), schema, key, path);
      }
      return Valid;
    }

    method ValidatePatterns(
        fields: map<string, Json>, names: seq<string>, patterns: Json, key: string, path: string) returns (v: Verdict)
      requires Located(env, patterns, key) && patterns.Obj? && Within(names, patterns.fields)
      modifies this
      ensures v == EvalPatterns(env, old(active), fields, names, patterns, key, path)
      ensures v.Valid? ==> active == old(active)
      decreases Idle(env, active), patterns, 1, 0
    {
      hide Eval, EvalMatching, Located;
      ChildLocated(env, patterns, key);
      assert names[0..] == names;
      for i := 0 to |names|
        invariant active == old(active)
        invariant EvalPatterns(env, active, fields, names, patterns, key, path)
               == EvalPatterns(env, active, fields, names[i..], patterns, key, path)
      {
        assert names[i..][1..] == names[i + 1..];
        if !env.isPattern(names[i]) {
          return Invalid(path, PatternInvalid);
        }
        :- ValidateMatching(fields, names[i], patterns.fields[names[i]], key, path);
      }
      return Valid;
    }

    method ValidateMatching(fields: map<string, Json>, pattern: string, schema: Json, key: string, path: string)
      returns (v: Verdict)
      requires Located(env, schema, key)
      modifies this
      ensures v == EvalMatching(env, old(active), fields, NamesOf(fields), pattern, schema, key, path)
      ensures v.Valid? ==> active == old(active)
      decreases Idle(env, active), schema, 11, 0
    {
      hide Eval, Located, PropertyPath, Idle;
      var names := NamesOf(fields);
      hide NamesOf;
      assert names[0..] == names;
      for i := 0 to |names|
        invariant active == old(active)
        invariant EvalMatching(env, active, fields, names, pattern, schema, key, path)
               == EvalMatching(env, active, fields, names[i..], pattern, schema, key, path)
      {
        assert names[i..][1..] == names[i + 1..];
        if env.Matches(pattern, names[i]) {
          :- Validate(fields[names[i]], schema, key, PropertyPath(path, names[i]));
        }
      }
      return Valid;
    }

    method ValidateAdditional(fields: map<string, Json>, names: seq<string>, schema: Json, key: string, path: string)
      returns (v: Verdict)
      requires Located(env, schema, key) && schema.Obj? && "additionalProperties" in schema.fields && Within(names, fields)
      modifies this
      ensures v == EvalAdditional(env, old(active), fields, names, schema, key, path)
      ensures v.Valid? ==> active == old(active)
      decreases Idle(env, active), schema, 6, |names| + 1
    {
      hide Eval, Located, Covered;
      ChildLocated(env, schema, key);
      var additional := schema.fields["additionalProperties"];
      assert names[0..] == names;
      for i := 0 to |names|
        invariant active == old(active)
        invariant EvalAdditional(env, active, fields, names, schema, key, path)
               == EvalAdditional(env, active, fields, names[i..], schema, key, path)
      {
        assert names[i..][1..] == names[i + 1..];
        if !Covered(env, schema, names[i]) {
          match additional {
            case Bool(allowed) =>
              if !allowed {
                return Invalid(PropertyPath(path, names[i]), PropertyNotAllowed(names[i]));
              }
            case Obj(_) => :- Validate(fields[names[i]], additional, key, PropertyPath(path, names[i]));
            case _ => return Invalid(path, AdditionalKeywordInvalid);
          }
        }
      }
      return Valid;
    }
  }

  /** Validation against a whole resource, from no active references. */
  method ValidateResource(env: Env, rootKey: string, value: Json) returns (v: Verdict)
    ensures rootKey !in env.resources ==> v == Invalid("", TargetUnavailable(rootKey))
    ensures rootKey in env.resources ==> v == Eval(env, {}, value, env.resources[rootKey], rootKey, "")
  {
    if rootKey !in env.resources {
      return Invalid("", TargetUnavailable(rootKey));
    }
    var context := new Context(env, {});
    v := context.Validate(value, env.resources[rootKey], rootKey, "");
  }
}
