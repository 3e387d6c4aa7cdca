/**
 * What a schema means: a satisfaction relation without paths, messages, loops, probes or active
 * references, for every closure of schemas without cyclic references.
 */
module SchemaMeaning {
  import opened Prelude
  import opened Ordering
  import opened SchemaEvaluator
  import opened SchemaTargets

  /* ---------- keywords ---------- */

  ghost predicate IsList(schema: Json, keyword: string) {
    exists items :: schema.Get(keyword) == Some(Arr(items))
  }

  ghost predicate IsTable(schema: Json, keyword: string) {
    exists table :: schema.Get(keyword) == Some(Obj(table))
  }

  /* ---------- acyclic closures ---------- */

  /** The schemas that a schema applies to the same value or to a part of it. */
  ghost function Applied(schema: Json): (children: set<Json>)
    ensures forall c :: c in children ==> c < schema
  {
    if !schema.Obj? then {} else
    (set k | k in {"if", "then", "else", "not", "contains", "propertyNames", "additionalProperties"} && k in schema.fields
       :: schema.fields[k])
    + (if IsTable(schema, "items") then {schema.fields["items"]} else {})
    + (set k, i | k in {"allOf", "anyOf", "oneOf", "items"} && IsList(schema, k) && 0 <= i < |schema.fields[k].items|
         :: schema.fields[k].items[i])
    + (set k, p | k in {"properties", "patternProperties"} && IsTable(schema, k) && p in schema.fields[k].fields
         :: schema.fields[k].fields[p])
  }

  /** A rank for some references: those that can be met. */
  type Ranking = map<string, nat>

  /** Every reference that evaluating the schema can meet, before following one, ranks below the bound. */
  ghost predicate RanksBelow(rank: Ranking, schema: Json, key: string, bound: nat)
    decreases schema
  {
    (forall reference :: schema.Get("$ref") == Some(Str(reference)) ==>
       var name := ReferenceKey(key, reference); name in rank && rank[name] < bound)
    && forall c :: c in Applied(schema) ==> RanksBelow(rank, c, key, bound)
  }

  /**
   * The ranked references lead to ranked ones only, and no chain of them returns to its start: following
   * a reference lowers the rank.  Nothing is asked of references that are not ranked.
   */
  ghost predicate Acyclic(env: Env, rank: Ranking) {
    forall key, reference, target, next | RankedIn(env, rank, key, reference) && Leads(env, key, reference, target, next) ::
      RanksBelow(rank, next, target, rank[ReferenceKey(key, reference)])
  }

  ghost predicate RankedIn(env: Env, rank: Ranking, key: string, reference: string) {
    key in env.resources && reference in References(env.resources[key]) && ReferenceKey(key, reference) in rank
  }

  /** A schema in place: part of its resource, its references ranked. */
  ghost predicate Ranked(env: Env, rank: Ranking, schema: Json, key: string, bound: nat) {
    Acyclic(env, rank) && Located(env, schema, key) && RanksBelow(rank, schema, key, bound)
  }

  lemma AppliedRanked(env: Env, rank: Ranking, schema: Json, key: string, bound: nat)
    requires Ranked(env, rank, schema, key, bound)
    ensures forall c :: c in Applied(schema) ==> Ranked(env, rank, c, key, bound)
  {
    ChildLocated(env, schema, key);
    if schema.Obj? {
      forall k | k in schema.fields
        ensures schema.fields[k].Obj? ==> forall p :: p in schema.fields[k].fields ==> Located(env, schema.fields[k].fields[p], key)
        ensures schema.fields[k].Arr? ==> forall i :: 0 <= i < |schema.fields[k].items| ==> Located(env, schema.fields[k].items[i], key)
      {
        ChildLocated(env, schema.fields[k], key);
      }
    }
  }

  lemma Child(schema: Json, keyword: string)
    requires schema.Obj? && keyword in schema.fields
    requires keyword in {"if", "then", "else", "not", "contains", "propertyNames", "additionalProperties"}
             || (keyword == "items" && schema.fields[keyword].Obj?)
    ensures schema.fields[keyword] in Applied(schema)
  {
  }

  lemma Branch(schema: Json, keyword: string, i: nat)
    requires IsList(schema, keyword) && keyword in {"allOf", "anyOf", "oneOf", "items"} && i < |schema.fields[keyword].items|
    ensures schema.fields[keyword].items[i] in Applied(schema)
  {
  }

  lemma Entry(schema: Json, keyword: string, name: string)
    requires IsTable(schema, keyword) && keyword in {"properties", "patternProperties"} && name in schema.fields[keyword].fields
    ensures schema.fields[keyword].fields[name] in Applied(schema)
  {
  }

  lemma TargetRanked(env: Env, rank: Ranking, schema: Json, key: string, bound: nat, reference: string, target: string, next: Json)
    requires Ranked(env, rank, schema, key, bound) && schema.Get("$ref") == Some(Str(reference))
    requires Leads(env, key, reference, target, next)
    ensures var name := ReferenceKey(key, reference);
            name in rank && rank[name] < bound && Ranked(env, rank, next, target, rank[name])
  {
    hide Leads;
    assert reference in References(schema);
    LeadsInside(env, key, reference, target, next);
  }

  /* ---------- satisfaction ---------- */

  /** The types by name; an integer fits in 64 bits, signed or not. */
  ghost predicate HasType(value: Json, name: string) {
    (value.Null? && name == "null") || (value.Bool? && name == "boolean") || (value.Obj? && name == "object")
    || (value.Arr? && name == "array") || (value.Str? && name == "string") || (value.Number? && name == "number")
    || (value.Number? && name == "integer" && (-0x8000_0000_0000_0000 <= value.number <= 0x7FFF_FFFF_FFFF_FFFF
                                                || 0 <= value.number <= 0xFFFF_FFFF_FFFF_FFFF))
  }

  ghost predicate Finds(env: Env, pattern: string, text: string) {
    env.isPattern(pattern) && env.finds(pattern, text)
  }

  ghost predicate AllowsType(schema: Json, value: Json) {
    match schema.Get("type")
    case None => true
    case Some(Str(name)) => HasType(value, name)
    case Some(Arr(names)) => exists name :: name in names && name.Str? && HasType(value, name.text)
    case Some(_) => false
  }

  ghost predicate AllowsValue(schema: Json, value: Json) {
    (forall expected :: schema.Get("const") == Some(expected) ==> value == expected)
    && (forall values :: schema.Get("enum") == Some(Arr(values)) ==> value in values)
  }

  /** A limit is an unsigned 64-bit integer; anything else is none. */
  ghost predicate AtLeast(limit: Option<Json>, n: nat) {
    forall low :: limit == Some(Number(low)) && 0 <= low <= 0xFFFF_FFFF_FFFF_FFFF ==> low <= n
  }

  ghost predicate AtMost(limit: Option<Json>, n: nat) {
    forall high :: limit == Some(Number(high)) && 0 <= high <= 0xFFFF_FFFF_FFFF_FFFF ==> n <= high
  }

  ghost predicate AllowsString(env: Env, schema: Json, value: Json) {
    value.Str? ==>
      AtLeast(schema.Get("minLength"), |value.text|) && AtMost(schema.Get("maxLength"), |value.text|)
      && forall pattern :: schema.Get("pattern") == Some(Str(pattern)) ==> Finds(env, pattern, value.text)
  }

  ghost predicate AllowsNumber(schema: Json, value: Json) {
    value.Number? ==>
      (forall low :: schema.Get("minimum") == Some(Number(low)) ==> low <= value.number)
      && (forall high :: schema.Get("maximum") == Some(Number(high)) ==> value.number <= high)
  }

  ghost predicate AllowsSize(schema: Json, values: seq<Json>) {
    AtLeast(schema.Get("minItems"), |values|) && AtMost(schema.Get("maxItems"), |values|)
    && (schema.Get("uniqueItems") == Some(Bool(true)) ==> Distinct(values))
  }

  ghost predicate AllowsMembers(schema: Json, fields: map<string, Json>) {
    AtLeast(schema.Get("minProperties"), |fields|)
    && forall names: seq<Json>, name: Json :: schema.Get("required") == Some(Arr(names)) && name in names ==> name.Str? && name.text in fields
  }

  ghost predicate Sat(env: Env, rank: Ranking, value: Json, schema: Json, key: string, bound: nat)
    requires Ranked(env, rank, schema, key, bound)
    decreases bound, schema, 4
  {
    schema.Obj? && schema.fields.Keys <= SUPPORTED
    && SatReference(env, rank, value, schema, key, bound)
    && SatCompositions(env, rank, value, schema, key, bound)
    && AllowsType(schema, value) && AllowsValue(schema, value) && AllowsString(env, schema, value)
    && AllowsNumber(schema, value)
    && SatArray(env, rank, value, schema, key, bound)
    && SatObject(env, rank, value, schema, key, bound)
  }

  ghost predicate SatReference(env: Env, rank: Ranking, value: Json, schema: Json, key: string, bound: nat)
    requires Ranked(env, rank, schema, key, bound)
    decreases bound, schema, 1
  {
    match schema.Get("$ref")
    case Some(Str(reference)) =>
      exists target, next :: Leads(env, key, reference, target, next)
        && (TargetRanked(env, rank, schema, key, bound, reference, target, next);
            Sat(env, rank, value, next, target, rank[ReferenceKey(key, reference)]))
    case _ => true
  }

  /** A direct part of the schema, where it stands in for `Sat` on that part. */
  ghost predicate Part(env: Env, rank: Ranking, value: Json, schema: Json, key: string, bound: nat, part: Json)
    requires Ranked(env, rank, schema, key, bound)
    decreases bound, schema, 0
  {
    AppliedRanked(env, rank, schema, key, bound);
    part in Applied(schema) && Sat(env, rank, value, part, key, bound)
  }

  ghost predicate SatAllOf(env: Env, rank: Ranking, value: Json, schema: Json, key: string, bound: nat)
    requires Ranked(env, rank, schema, key, bound) && schema.Obj?
    decreases bound, schema, 1
  {
    IsList(schema, "allOf") ==>
      forall i :: 0 <= i < |schema.fields["allOf"].items| ==>
        Part(env, rank, value, schema, key, bound, schema.fields["allOf"].items[i])
  }

  ghost predicate SatAnyOf(env: Env, rank: Ranking, value: Json, schema: Json, key: string, bound: nat)
    requires Ranked(env, rank, schema, key, bound) && schema.Obj?
    decreases bound, schema, 1
  {
    IsList(schema, "anyOf") ==>
      exists i :: 0 <= i < |schema.fields["anyOf"].items|
        && Part(env, rank, value, schema, key, bound, schema.fields["anyOf"].items[i])
  }

  /** Branch `i` of `oneOf` is satisfied and no other is. */
  ghost predicate OnlyBranch(env: Env, rank: Ranking, value: Json, schema: Json, key: string, bound: nat, i: nat)
    requires Ranked(env, rank, schema, key, bound) && IsList(schema, "oneOf")
    decreases bound, schema, 1
  {
    forall j :: 0 <= j < |schema.fields["oneOf"].items| ==>
      (Part(env, rank, value, schema, key, bound, schema.fields["oneOf"].items[j]) <==> j == i)
  }

  ghost predicate SatOneOf(env: Env, rank: Ranking, value: Json, schema: Json, key: string, bound: nat)
    requires Ranked(env, rank, schema, key, bound) && schema.Obj?
    decreases bound, schema, 2
  {
    IsList(schema, "oneOf") ==>
      exists i: nat :: i < |schema.fields["oneOf"].items| && OnlyBranch(env, rank, value, schema, key, bound, i)
  }

  ghost predicate SatCondition(env: Env, rank: Ranking, value: Json, schema: Json, key: string, bound: nat)
    requires Ranked(env, rank, schema, key, bound) && schema.Obj?
    decreases bound, schema, 1
  {
    "if" in schema.fields ==>
      if Part(env, rank, value, schema, key, bound, schema.fields["if"])
      then "then" in schema.fields ==> Part(env, rank, value, schema, key, bound, schema.fields["then"])
      else "else" in schema.fields ==> Part(env, rank, value, schema, key, bound, schema.fields["else"])
  }

  ghost predicate SatNot(env: Env, rank: Ranking, value: Json, schema: Json, key: string, bound: nat)
    requires Ranked(env, rank, schema, key, bound) && schema.Obj?
    decreases bound, schema, 1
  {
    "not" in schema.fields ==> !Part(env, rank, value, schema, key, bound, schema.fields["not"])
  }

  ghost predicate SatCompositions(env: Env, rank: Ranking, value: Json, schema: Json, key: string, bound: nat)
    requires Ranked(env, rank, schema, key, bound) && schema.Obj?
    decreases bound, schema, 3
  {
    SatAllOf(env, rank, value, schema, key, bound)
    && SatAnyOf(env, rank, value, schema, key, bound)
    && SatOneOf(env, rank, value, schema, key, bound)
    && SatCondition(env, rank, value, schema, key, bound)
    && SatNot(env, rank, value, schema, key, bound)
  }

  ghost predicate SatArray(env: Env, rank: Ranking, value: Json, schema: Json, key: string, bound: nat)
    requires Ranked(env, rank, schema, key, bound) && schema.Obj?
    decreases bound, schema, 1
  {
    value.Arr? ==>
      var values := value.items;
      && AllowsSize(schema, values)
      && ("items" in schema.fields ==> schema.fields["items"].Obj? || schema.fields["items"].Arr?)
      && (IsTable(schema, "items") ==>
           forall i :: 0 <= i < |values| ==> Part(env, rank, values[i], schema, key, bound, schema.fields["items"]))
      && (IsList(schema, "items") ==>
           forall i :: 0 <= i < |values| && i < |schema.fields["items"].items| ==>
             Part(env, rank, values[i], schema, key, bound, schema.fields["items"].items[i]))
      && ("contains" in schema.fields ==>
           exists i :: 0 <= i < |values| && Part(env, rank, values[i], schema, key, bound, schema.fields["contains"]))
  }

  /** Named by `properties`, or found by a pattern of `patternProperties`. */
  ghost predicate Declared(env: Env, schema: Json, name: string) {
    (exists table :: schema.Get("properties") == Some(Obj(table)) && name in table)
    || exists table, pattern :: schema.Get("patternProperties") == Some(Obj(table)) && pattern in table && Finds(env, pattern, name)
  }

  ghost predicate SatObject(env: Env, rank: Ranking, value: Json, schema: Json, key: string, bound: nat)
    requires Ranked(env, rank, schema, key, bound) && schema.Obj?
    decreases bound, schema, 1
  {
    value.Obj? ==>
      var fields := value.fields;
      && AllowsMembers(schema, fields)
      && ("propertyNames" in schema.fields ==>
           forall name :: name in fields ==> Part(env, rank, Str(name), schema, key, bound, schema.fields["propertyNames"]))
      && (IsTable(schema, "properties") ==>
           forall name :: name in schema.fields["properties"].fields && name in fields ==>
             Part(env, rank, fields[name], schema, key, bound, schema.fields["properties"].fields[name]))
      && (IsTable(schema, "patternProperties") ==>
           forall pattern :: pattern in schema.fields["patternProperties"].fields ==>
             env.isPattern(pattern)
             && forall name :: name in fields && Finds(env, pattern, name) ==>
                  Part(env, rank, fields[name], schema, key, bound, schema.fields["patternProperties"].fields[pattern]))
      && ("additionalProperties" in schema.fields ==>
           forall name :: name in fields && !Declared(env, schema, name) ==>
             schema.fields["additionalProperties"] == Bool(true)
             || (schema.fields["additionalProperties"].Obj?
                 && Part(env, rank, fields[name], schema, key, bound, schema.fields["additionalProperties"])))
  }
}
