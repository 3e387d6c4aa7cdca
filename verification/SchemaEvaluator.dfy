/**
 * The schema evaluator: a JSON-Schema subset over a sealed map of resources, with references
 * across resources and a set of active references that turns a cyclic reference into an error.
 */
module SchemaEvaluator {
  import opened Prelude
  import opened Strings
  import opened Ordering
  import opened CanonicalText

  /** Why a value was rejected. */
  datatype Reason =
    | SchemaNotAnObject | UnsupportedKeyword(keyword: string)
    | CyclicReference | TargetUnavailable(key: string) | FragmentUnsupported | PointerUnresolved(reference: string)
    | NoBranchMatches | NotExactlyOneBranch | ProhibitedMatch
    | TypeKeywordInvalid | TypeMismatch | ConstMismatch | OutsideEnum
    | TooShort(minimum: nat) | TooLong(maximum: nat) | PatternInvalid | PatternMismatch(pattern: string)
    | TooFewItems(minimum: nat) | TooManyItems(maximum: nat) | RepeatedItems | ItemsKeywordInvalid | NothingContained
    | RequiredKeywordInvalid | PropertyMissing(property: string) | TooFewProperties(minimum: nat)
    | PropertyNotAllowed(property: string) | AdditionalKeywordInvalid
    | BelowMinimum | AboveMaximum

  /** The outcome of a validation; usable with `:-`. */
  datatype Verdict = Valid | Invalid(path: string, reason: Reason) {
    predicate IsFailure() {
      Invalid?
    }

    function PropagateFailure(): Verdict
      requires Invalid?
    {
      this
    }
  }

  /** The sealed resources, and regular expressions: which texts are patterns, and what a pattern finds. */
  datatype Env = Env(resources: map<string, Json>, isPattern: string -> bool, finds: (string, string) -> bool)
  {
    predicate Matches(pattern: string, text: string) {
      isPattern(pattern) && finds(pattern, text)
    }
  }

  /* ---------- keyword access ---------- */

  const SUPPORTED: set<string> := {
    "$id", "$ref", "$schema", "$defs", "contentEncoding", "title", "description", "definitions", "type",
    "allOf", "anyOf", "oneOf", "if", "then", "else", "not", "const", "enum", "pattern", "minLength", "maxLength",
    "minItems", "maxItems", "minProperties", "uniqueItems", "contains", "patternProperties", "items", "required",
    "properties", "propertyNames", "additionalProperties", "minimum", "maximum"
  }

  /** An unsigned 64-bit integer; anything else is ignored by the keywords that want one. */
  function Natural(value: Option<Json>): Option<nat> {
    match value
    case Some(Number(n)) => if 0 <= n < 0x1_0000_0000_0000_0000 then Some(n) else None
    case _ => None
  }

  function Text(value: Option<Json>): Option<string> {
    match value
    case Some(Str(s)) => Some(s)
    case _ => None
  }

  predicate HasList(schema: Json, keyword: string) {
    schema.Obj? && keyword in schema.fields && schema.fields[keyword].Arr?
  }

  predicate HasTable(schema: Json, keyword: string) {
    schema.Obj? && keyword in schema.fields && schema.fields[keyword].Obj?
  }

  predicate Within(names: seq<string>, fields: map<string, Json>) {
    forall i :: 0 <= i < |names| ==> names[i] in fields
  }

  /** The member names of an object, in iteration order. */
  function NamesOf(fields: map<string, Json>): (names: seq<string>)
    ensures Within(names, fields) && Distinct(names) && forall name :: name in fields <==> name in names
  {
    SortedKeys(fields.Keys)
  }

  function PropertyPath(path: string, property: string): string {
    if path == "" then property else path + "." + property
  }

  function IndexPath(path: string, index: nat): string {
    path + "[" + Decimal(index) + "]"
  }

  /* ---------- references ---------- */

  /** The resource that a reference inside `key` names. */
  function TargetKey(key: string, reference: string): string {
    var resource := match SplitOnce(reference, '#') case Some(parts) => parts.0 case None => reference;
    if resource == "" then key
    else
      var directory := Directory(key);
      var name := if EndsWith(resource, ".json") then TrimEnd(resource, ".json") else resource;
      if !StartsWith(name, "authoring/") && directory != "" then directory + "/" + name else name
  }

  /** The part of a key before its last slash. */
  function Directory(key: string): string {
    if key == "" then ""
    else if key[|key| - 1] == '/' then key[..|key| - 1]
    else Directory(key[..|key| - 1])
  }

  function Fragment(reference: string): string {
    match SplitOnce(reference, '#') case Some(parts) => parts.1 case None => ""
  }

  function WalkMembers(value: Json, segments: seq<string>): Option<Json>
    decreases |segments|
  {
    if segments == [] then Some(value) else
    match value.Get(SegmentName(segments[0]))
    case None => None
    case Some(child) => WalkMembers(child, segments[1..])
  }

  function ResolveReference(env: Env, key: string, reference: string): Result<(string, Json), Reason> {
    var target := TargetKey(key, reference);
    var fragment := Fragment(reference);
    if target !in env.resources then Err(TargetUnavailable(target))
    else if fragment == "" then Ok((target, env.resources[target]))
    else if fragment[0] != '/' then Err(FragmentUnsupported)
    else
      match WalkMembers(env.resources[target], Split(fragment[1..], '/'))
      case None => Err(PointerUnresolved(reference))
      case Some(schema) => Ok((target, schema))
  }

  /** The walk as the program performs it: a cursor moved segment by segment. */
  method FollowMembers(root: Json, segments: seq<string>) returns (r: Option<Json>)
    ensures r == WalkMembers(root, segments)
  {
    var current := root;
    for i := 0 to |segments|
      invariant WalkMembers(root, segments) == WalkMembers(current, segments[i..])
    {
      assert segments[i..][1..] == segments[i + 1..];
      match current.Get(SegmentName(segments[i])) {
        case None => return None;
        case Some(child) => current := child;
      }
    }
    return Some(current);
  }

  /** Resolution as the program performs it. */
  method FollowReference(env: Env, key: string, reference: string) returns (r: Result<(string, Json), Reason>)
    ensures r == ResolveReference(env, key, reference)
  {
    var target := TargetKey(key, reference);
    var fragment := Fragment(reference);
    if target !in env.resources {
      return Err(TargetUnavailable(target));
    }
    if fragment == "" {
      return Ok((target, env.resources[target]));
    }
    if fragment[0] != '/' {
      return Err(FragmentUnsupported);
    }
    var schema := FollowMembers(env.resources[target], Split(fragment[1..], '/'));
    match schema
    case None => return Err(PointerUnresolved(reference));
    case Some(found) => return Ok((target, found));
  }

  /* ---------- the termination measure ---------- */

  /** Every reference written anywhere inside a value. */
  ghost function References(value: Json): set<string> {
    match value
    case Arr(items) => set i, r | 0 <= i < |items| && r in References(items[i]) :: r
    case Obj(fields) =>
      (if "$ref" in fields && fields["$ref"].Str? then {fields["$ref"].text} else {})
      + (set k, r | k in fields && r in References(fields[k]) :: r)
    case _ => {}
  }

  /** The schema is part of the resource it is relative to. */
  ghost predicate Located(env: Env, schema: Json, key: string) {
    key in env.resources && References(schema) <= References(env.resources[key])
  }

  /** The name under which a reference is active. */
  function ReferenceKey(key: string, reference: string): string {
    key + "#" + reference
  }

  /** All references that can ever become active. */
  ghost function Universe(env: Env): set<string> {
    set k, r | k in env.resources && r in References(env.resources[k]) :: ReferenceKey(k, r)
  }

  ghost function Idle(env: Env, active: set<string>): nat {
    |Universe(env) - active|
  }

  lemma {:induction false} WalkedReferences(value: Json, segments: seq<string>)
    requires WalkMembers(value, segments).Some?
    ensures References(WalkMembers(value, segments).value) <= References(value)
    decreases |segments|
  {
    if segments != [] {
      WalkedReferences(value.Get(SegmentName(segments[0])).value, segments[1..]);
    }
  }

  /** A resolved schema is located in the resource it was found in. */
  lemma ResolvedIsLocated(env: Env, key: string, reference: string)
    requires ResolveReference(env, key, reference).Ok?
    ensures var target := ResolveReference(env, key, reference).value; Located(env, target.1, target.0)
  {
    var fragment := Fragment(reference);
    if fragment != "" {
      WalkedReferences(env.resources[TargetKey(key, reference)], Split(fragment[1..], '/'));
    }
  }

  /** Activating a reference that was idle leaves fewer idle ones. */
  lemma ActivationProgress(env: Env, active: set<string>, schema: Json, key: string)
    requires Located(env, schema, key) && Text(schema.Get("$ref")).Some?
    requires ReferenceKey(key, Text(schema.Get("$ref")).value) !in active
    ensures Idle(env, active + {ReferenceKey(key, Text(schema.Get("$ref")).value)}) < Idle(env, active)
  {
    var reference := schema.fields["$ref"].text;
    assert reference in References(schema);
    var name := ReferenceKey(key, reference);
    var before, after := Universe(env) - active, Universe(env) - (active + {name});
    assert name in before && name !in after && after <= before;
    assert after + {name} <= before;
    Smaller(after, before, name);
  }

  lemma Smaller(small: set<string>, large: set<string>, extra: string)
    requires small <= large && extra in large && extra !in small
    ensures |small| < |large|
  {
    assert |large - small| > 0 by { assert extra in large - small; }
    assert large == small + (large - small);
  }

  lemma ChildLocated(env: Env, schema: Json, key: string)
    requires Located(env, schema, key)
    ensures schema.Obj? ==> forall k :: k in schema.fields ==> Located(env, schema.fields[k], key)
    ensures schema.Arr? ==> forall i :: 0 <= i < |schema.items| ==> Located(env, schema.items[i], key)
  {
  }

  /* ---------- checks that look at no other schema ---------- */

  function UnsupportedKeywords(names: seq<string>): Option<string> {
    if names == [] then None
    else if names[0] !in SUPPORTED then Some(names[0])
    else UnsupportedKeywords(names[1..])
  }

  function CheckKeywords(schema: Json, path: string): Verdict
    requires schema.Obj?
  {
    match UnsupportedKeywords(NamesOf(schema.fields))
    case Some(keyword) => Invalid(path, UnsupportedKeyword(keyword))
    case None => Valid
  }

  function TypeMatches(value: Json, name: string): bool {
    if name == "null" then value.Null?
    else if name == "boolean" then value.Bool?
    else if name == "object" then value.Obj?
    else if name == "array" then value.Arr?
    else if name == "string" then value.Str?
    else if name == "number" then value.Number?
    else if name == "integer" then
      value.Number? && -0x8000_0000_0000_0000 <= value.number < 0x1_0000_0000_0000_0000
    else false
  }

  function CheckType(schema: Json, value: Json, path: string): Verdict {
    match schema.Get("type")
    case None => Valid
    case Some(Str(name)) => if TypeMatches(value, name) then Valid else Invalid(path, TypeMismatch)
    case Some(Arr(names)) =>
      if exists i :: 0 <= i < |names| && names[i].Str? && TypeMatches(value, names[i].text) then Valid
      else Invalid(path, TypeMismatch)
    case Some(_) => Invalid(path, TypeKeywordInvalid)
  }

  function CheckConst(schema: Json, value: Json, path: string): Verdict {
    match schema.Get("const")
    case Some(expected) => if value == expected then Valid else Invalid(path, ConstMismatch)
    case None => Valid
  }

  function CheckEnum(schema: Json, value: Json, path: string): Verdict {
    match schema.Get("enum")
    case Some(Arr(values)) => if value in values then Valid else Invalid(path, OutsideEnum)
    case _ => Valid
  }

  function CheckString(env: Env, schema: Json, value: Json, path: string): Verdict {
    if !value.Str? then Valid else
    var minimum, maximum := Natural(schema.Get("minLength")), Natural(schema.Get("maxLength"));
    if minimum.Some? && |value.text| < minimum.value then Invalid(path, TooShort(minimum.value))
    else if maximum.Some? && |value.text| > maximum.value then Invalid(path, TooLong(maximum.value))
    else
      match Text(schema.Get("pattern"))
      case None => Valid
      case Some(pattern) =>
        if !env.isPattern(pattern) then Invalid(path, PatternInvalid)
        else if env.Matches(pattern, value.text) then Valid
        else Invalid(path, PatternMismatch(pattern))
  }

  predicate HasRepeats(values: seq<Json>) {
    exists i, j :: 0 <= i < j < |values| && values[i] == values[j]
  }

  function CheckSize(schema: Json, values: seq<Json>, path: string): Verdict {
    var minimum, maximum := Natural(schema.Get("minItems")), Natural(schema.Get("maxItems"));
    if minimum.Some? && |values| < minimum.value then Invalid(path, TooFewItems(minimum.value))
    else if maximum.Some? && |values| > maximum.value then Invalid(path, TooManyItems(maximum.value))
    else if schema.Get("uniqueItems") == Some(Bool(true)) && HasRepeats(values) then Invalid(path, RepeatedItems)
    else Valid
  }

  function CheckRequired(fields: map<string, Json>, required: seq<Json>, path: string): Verdict {
    if required == [] then Valid
    else if !required[0].Str? then Invalid(path, RequiredKeywordInvalid)
    else if required[0].text !in fields then
      Invalid(PropertyPath(path, required[0].text), PropertyMissing(required[0].text))
    else CheckRequired(fields, required[1..], path)
  }

  function RequiredNames(schema: Json): seq<Json> {
    match schema.Get("required")
    case Some(Arr(names)) => names
    case _ => []
  }

  function CheckMembers(schema: Json, fields: map<string, Json>, path: string): Verdict {
    var required := CheckRequired(fields, RequiredNames(schema), path);
    if required.Invalid? then required else
    var minimum := Natural(schema.Get("minProperties"));
    if minimum.Some? && |fields| < minimum.value then Invalid(path, TooFewProperties(minimum.value)) else Valid
  }

  function CheckNumber(schema: Json, value: Json, path: string): Verdict {
    if !value.Number? then Valid else
    match (schema.Get("minimum"), schema.Get("maximum"))
    case (Some(Number(low)), Some(Number(high))) =>
      if value.number < low then Invalid(path, BelowMinimum)
      else if value.number > high then Invalid(path, AboveMaximum)
      else Valid
    case (Some(Number(low)), _) => if value.number < low then Invalid(path, BelowMinimum) else Valid
    case (_, Some(Number(high))) => if value.number > high then Invalid(path, AboveMaximum) else Valid
    case _ => Valid
  }

  /** The checks between the compositions and the structural keywords, in the program's order. */
  function CheckLocal(env: Env, schema: Json, value: Json, path: string): Verdict {
    var typed := CheckType(schema, value, path);
    if typed.Invalid? then typed else
    :- CheckConst(schema, value, path);
    :- CheckEnum(schema, value, path);
    CheckString(env, schema, value, path)
  }

  /* ---------- evaluation ---------- */

  function Eval(env: Env, active: set<string>, value: Json, schema: Json, key: string, path: string): Verdict
    requires Located(env, schema, key)
    decreases Idle(env, active), schema, 9, 0
  {
    if !schema.Obj? then Invalid(path, SchemaNotAnObject) else
    :- CheckKeywords(schema, path);
    :- EvalReference(env, active, value, schema, key, path);
    :- EvalCompositions(env, active, value, schema, key, path);
    :- CheckLocal(env, schema, value, path);
    :- EvalArray(env, active, value, schema, key, path);
    :- EvalObject(env, active, value, schema, key, path);
    CheckNumber(schema, value, path)
  }

  function EvalReference(env: Env, active: set<string>, value: Json, schema: Json, key: string, path: string): Verdict
    requires Located(env, schema, key)
    decreases Idle(env, active), schema, 8, 0
  {
    match Text(schema.Get("$ref"))
    case None => Valid
    case Some(reference) =>
      var name := ReferenceKey(key, reference);
      if name in active then Invalid(path, CyclicReference) else
      match ResolveReference(env, key, reference)
      case Err(reason) => Invalid(path, reason)
      case Ok(target) =>
        ResolvedIsLocated(env, key, reference);
        ActivationProgress(env, active, schema, key);
        Eval(env, active + {name}, value, target.1, target.0, path)
  }

  function EvalCompositions(env: Env, active: set<string>, value: Json, schema: Json, key: string, path: string): Verdict
    requires Located(env, schema, key) && schema.Obj?
    decreases Idle(env, active), schema, 8, 0
  {
    var lists := EvalLists(env, active, value, schema, key, path);
    if lists.Invalid? then lists else
    :- EvalCondition(env, active, value, schema, key, path);
    EvalNot(env, active, value, schema, key, path)
  }

  /** `allOf`, `anyOf` and `oneOf`. */
  function EvalLists(env: Env, active: set<string>, value: Json, schema: Json, key: string, path: string): Verdict
    requires Located(env, schema, key) && schema.Obj?
    decreases Idle(env, active), schema, 7, 0
  {
    ChildLocated(env, schema, key);
    :- if HasList(schema, "allOf") then EvalAll(env, active, value, schema.fields["allOf"], 0, key, path) else Valid;
    :- if HasList(schema, "anyOf") then
         AnyOfVerdict(EvalBranches(env, active, value, schema.fields["anyOf"], 0, key, path), path)
       else Valid;
    if HasList(schema, "oneOf") then
      OneOfVerdict(EvalBranches(env, active, value, schema.fields["oneOf"], 0, key, path), path)
    else Valid
  }

  function EvalNot(env: Env, active: set<string>, value: Json, schema: Json, key: string, path: string): Verdict
    requires Located(env, schema, key) && schema.Obj?
    decreases Idle(env, active), schema, 7, 0
  {
    ChildLocated(env, schema, key);
    if "not" in schema.fields && Eval(env, active, value, schema.fields["not"], key, path).Valid?
    then Invalid(path, ProhibitedMatch) else Valid
  }

  function EvalAll(env: Env, active: set<string>, value: Json, list: Json, i: nat, key: string, path: string): Verdict
    requires Located(env, list, key) && list.Arr? && i <= |list.items|
    decreases Idle(env, active), list, 0, |list.items| - i
  {
    if i == |list.items| then Valid else
    ChildLocated(env, list, key);
    :- Eval(env, active, value, list.items[i], key, path);
    EvalAll(env, active, value, list, i + 1, key, path)
  }

  /** How many branches match, and the first failure. */
  datatype Tally = Tally(matches: nat, firstError: Option<Verdict>)

  function Count(tally: Tally, verdict: Verdict): Tally {
    if verdict.Valid? then Tally(tally.matches + 1, tally.firstError)
    else Tally(tally.matches, if tally.firstError.None? then Some(verdict) else tally.firstError)
  }

  function EvalBranches(
      env: Env, active: set<string>, value: Json, list: Json, i: nat, key: string, path: string,
      tally: Tally := Tally(0, None)): Tally
    requires Located(env, list, key) && list.Arr? && i <= |list.items|
    decreases Idle(env, active), list, 0, |list.items| - i
  {
    if i == |list.items| then tally else
    ChildLocated(env, list, key);
    EvalBranches(env, active, value, list, i + 1, key, path, Count(tally, Eval(env, active, value, list.items[i], key, path)))
  }

  function AnyOfVerdict(tally: Tally, path: string): Verdict {
    if tally.matches > 0 then Valid
    else if tally.firstError.Some? then tally.firstError.value
    else Invalid(path, NoBranchMatches)
  }

  function OneOfVerdict(tally: Tally, path: string): Verdict {
    if tally.matches == 1 then Valid else Invalid(path, NotExactlyOneBranch)
  }

  function EvalCondition(env: Env, active: set<string>, value: Json, schema: Json, key: string, path: string): Verdict
    requires Located(env, schema, key) && schema.Obj?
    decreases Idle(env, active), schema, 7, 0
  {
    ChildLocated(env, schema, key);
    if "if" !in schema.fields then Valid else
    var selected := if Eval(env, active, value, schema.fields["if"], key, path).Valid? then "then" else "else";
    if selected in schema.fields then Eval(env, active, value, schema.fields[selected], key, path) else Valid
  }

  function EvalArray(env: Env, active: set<string>, value: Json, schema: Json, key: string, path: string): Verdict
    requires Located(env, schema, key) && schema.Obj?
    decreases Idle(env, active), schema, 8, 0
  {
    if !value.Arr? then Valid else
    ChildLocated(env, schema, key);
    :- CheckSize(schema, value.items, path);
    :- match schema.Get("items")
       case None => Valid
       case Some(Obj(fields)) => EvalItems(env, active, value.items, 0, schema.fields["items"], key, path)
       case Some(Arr(tuple)) => EvalTuple(env, active, value.items, 0, schema.fields["items"], key, path)
       case Some(_) => Invalid(path, ItemsKeywordInvalid);
    if "contains" in schema.fields && CountContained(env, active, value.items, 0, schema.fields["contains"], key, path) == 0
    then Invalid(path, NothingContained) else Valid
  }

  function EvalItems(
      env: Env, active: set<string>, values: seq<Json>, i: nat, schema: Json, key: string, path: string): Verdict
    requires Located(env, schema, key) && i <= |values|
    decreases Idle(env, active), schema, 10, |values| - i
  {
    if i == |values| then Valid else
    :- Eval(env, active, values[i], schema, key, IndexPath(path, i));
    EvalItems(env, active, values, i + 1, schema, key, path)
  }

  function EvalTuple(
      env: Env, active: set<string>, values: seq<Json>, i: nat, tuple: Json, key: string, path: string): Verdict
    requires Located(env, tuple, key) && tuple.Arr? && i <= |values|
    decreases Idle(env, active), tuple, 10, |values| - i
  {
    if i == |values| then Valid else
    ChildLocated(env, tuple, key);
    :- if i < |tuple.items| then Eval(env, active, values[i], tuple.items[i], key, IndexPath(path, i)) else Valid;
    EvalTuple(env, active, values, i + 1, tuple, key, path)
  }

  function CountContained(
      env: Env, active: set<string>, values: seq<Json>, i: nat, schema: Json, key: string, path: string): nat
    requires Located(env, schema, key) && i <= |values|
    decreases Idle(env, active), schema, 10, |values| - i
  {
    if i == |values| then 0
    else (if Eval(env, active, values[i], schema, key, path).Valid? then 1 else 0)
         + CountContained(env, active, values, i + 1, schema, key, path)
  }

  function EvalObject(env: Env, active: set<string>, value: Json, schema: Json, key: string, path: string): Verdict
    requires Located(env, schema, key) && schema.Obj?
    decreases Idle(env, active), schema, 8, 0
  {
    if !value.Obj? then Valid else
    :- CheckMembers(schema, value.fields, path);
    :- EvalDeclared(env, active, value.fields, schema, key, path);
    EvalOpen(env, active, value.fields, schema, key, path)
  }

  /** `propertyNames` and `properties`. */
  function EvalDeclared(
      env: Env, active: set<string>, fields: map<string, Json>, schema: Json, key: string, path: string): Verdict
    requires Located(env, schema, key) && schema.Obj?
    decreases Idle(env, active), schema, 7, 0
  {
    ChildLocated(env, schema, key);
    :- if "propertyNames" in schema.fields then
         EvalNames(env, active, NamesOf(fields), schema.fields["propertyNames"], key, path)
       else Valid;
    if !HasTable(schema, "properties") then Valid else
    var properties := schema.fields["properties"];
    EvalProperties(env, active, fields, NamesOf(properties.fields), properties, key, path)
  }

  /** `patternProperties` and `additionalProperties`. */
  function EvalOpen(
      env: Env, active: set<string>, fields: map<string, Json>, schema: Json, key: string, path: string): Verdict
    requires Located(env, schema, key) && schema.Obj?
    decreases Idle(env, active), schema, 7, 0
  {
    ChildLocated(env, schema, key);
    :- if HasTable(schema, "patternProperties") then
         var patterns := schema.fields["patternProperties"];
         EvalPatterns(env, active, fields, NamesOf(patterns.fields), patterns, key, path)
       else Valid;
    if "additionalProperties" !in schema.fields then Valid
    else EvalAdditional(env, active, fields, NamesOf(fields), schema, key, path)
  }

  function EvalNames(env: Env, active: set<string>, names: seq<string>, schema: Json, key: string, path: string): Verdict
    requires Located(env, schema, key)
    decreases Idle(env, active), schema, 10, |names|
  {
    if names == [] then Valid else
    :- Eval(env, active, Str(names[0]), schema, key, PropertyPath(path, names[0]));
    EvalNames(env, active, names[1..], schema, key, path)
  }

  function EvalProperties(
      env: Env, active: set<string>, fields: map<string, Json>, names: seq<string>, properties: Json, key: string,
      path: string): Verdict
    requires Located(env, properties, key) && properties.Obj? && Within(names, properties.fields)
    decreases Idle(env, active), properties, 0, |names|
  {
    if names == [] then Valid else
    ChildLocated(env, properties, key);
    var name := names[0];
    :- if name in fields then Eval(env, active, fields[name], properties.fields[name], key, PropertyPath(path, name)) else Valid;
    EvalProperties(env, active, fields, names[1..], properties, key, path)
  }

  function EvalPatterns(
      env: Env, active: set<string>, fields: map<string, Json>, names: seq<string>, patterns: Json, key: string,
      path: string): Verdict
    requires Located(env, patterns, key) && patterns.Obj? && Within(names, patterns.fields)
    decreases Idle(env, active), patterns, 0, |names|
  {
    if names == [] then Valid else
    ChildLocated(env, patterns, key);
    var pattern := names[0];
    if !env.isPattern(pattern) then Invalid(path, PatternInvalid) else
    :- EvalMatching(env, active, fields, NamesOf(fields), pattern, patterns.fields[pattern], key, path);
    EvalPatterns(env, active, fields, names[1..], patterns, key, path)
  }

  function EvalMatching(
      env: Env, active: set<string>, fields: map<string, Json>, names: seq<string>, pattern: string, schema: Json,
      key: string, path: string): Verdict
    requires Located(env, schema, key) && Within(names, fields)
    decreases Idle(env, active), schema, 10, |names|
  {
    if names == [] then Valid else
    var name := names[0];
    :- if env.Matches(pattern, name) then
         Eval(env, active, fields[name], schema, key, PropertyPath(path, name))
       else Valid;
    EvalMatching(env, active, fields, names[1..], pattern, schema, key, path)
  }

  /** Declared by `properties` or matched by some pattern. */
  predicate Covered(env: Env, schema: Json, name: string) {
    (HasTable(schema, "properties") && name in schema.fields["properties"].fields)
    || (HasTable(schema, "patternProperties")
        && exists p :: p in schema.fields["patternProperties"].fields && env.Matches(p, name))
  }

  function EvalAdditional(
      env: Env, active: set<string>, fields: map<string, Json>, names: seq<string>, schema: Json, key: string,
      path: string): Verdict
    requires Located(env, schema, key) && schema.Obj? && "additionalProperties" in schema.fields
    requires Within(names, fields)
    decreases Idle(env, active), schema, 6, |names|
  {
    if names == [] then Valid else
    ChildLocated(env, schema, key);
    var name, additional := names[0], schema.fields["additionalProperties"];
    :- if Covered(env, schema, name) then Valid
       else match additional
         case Bool(allowed) => if allowed then Valid else Invalid(PropertyPath(path, name), PropertyNotAllowed(name))
         case Obj(_) => Eval(env, active, fields[name], additional, key, PropertyPath(path, name))
         case _ => Invalid(path, AdditionalKeywordInvalid);
    EvalAdditional(env, active, fields, names[1..], schema, key, path)
  }
}
