/**
 * Which fault the evaluator reports, on every closure, cyclic ones included: the first group of keywords, in a
 * fixed order, that refuses the value, and within the group the first part that is refused, at its own path.
 */
module SchemaDiagnosis {
  import opened Prelude
  import opened Ordering
  import opened CanonicalText
  import opened Pointers
  import opened SchemaEvaluator
  import opened SchemaMeaning
  import opened SchemaTargets
  import opened SchemaRefinement

  /** Where schemas are read: the resources, the resource they stand in, and the references being followed. */
  datatype Scope = Scope(env: Env, active: set<string>, key: string)

  ghost predicate Gives(s: Scope, value: Json, schema: Json, path: string, v: Verdict) {
    Located(s.env, schema, s.key) && Eval(s.env, s.active, value, schema, s.key, path) == v
  }

  ghost predicate Fits(s: Scope, value: Json, schema: Json, path: string) {
    Gives(s, value, schema, path, Valid)
  }

  ghost predicate Refuses(s: Scope, value: Json, schema: Json, path: string, v: Verdict) {
    v.Invalid? && Gives(s, value, schema, path, v)
  }

  /** The groups of keywords. */
  datatype Group =
    | Reference | AllOf | AnyOf | OneOf | Condition | Prohibited | Typed | Constant | Enumerated
    | LeastLength | MostLength | Pattern | FewestItems | MostItems | Uniqueness | Items | Contained
    | Required | FewestProperties | PropertyNames | Properties | PatternProperties | AdditionalProperties | Least | Most

  const COMPOSITIONS: seq<Group> := [AllOf, AnyOf, OneOf, Condition, Prohibited]
  const LOCALS: seq<Group> := [Typed, Constant, Enumerated, LeastLength, MostLength, Pattern]
  const OF_ARRAYS: seq<Group> := [FewestItems, MostItems, Uniqueness, Items, Contained]
  const OF_OBJECTS: seq<Group> := [Required, FewestProperties, PropertyNames, Properties, PatternProperties, AdditionalProperties]
  const OF_NUMBERS: seq<Group> := [Least, Most]

  /* ---------- paths ---------- */

  function Below(path: string, name: string): string {
    if path == "" then name else path + "." + name
  }

  function Element(path: string, i: nat): string {
    path + "[" + Decimal(i) + "]"
  }

  /* ---------- the fault of one group ---------- */

  ghost predicate ReferenceFault(s: Scope, value: Json, schema: Json, path: string, v: Verdict) {
    match schema.Get("$ref")
    case Some(Str(reference)) =>
      if s.key + "#" + reference in s.active then v == Invalid(path, CyclicReference)
      else (exists target, next :: Leads(s.env, s.key, reference, target, next)
              && Refuses(Scope(s.env, s.active + {s.key + "#" + reference}, target), value, next, path, v))
           || ((forall target, next :: !Leads(s.env, s.key, reference, target, next))
               && v.Invalid? && v.path == path && Unresolvable(s, reference, v.reason))
    case _ => false
  }

  ghost predicate Unresolvable(s: Scope, reference: string, reason: Reason) {
    match reason
    case TargetUnavailable(target) => Names(s.key, reference, target) && target !in s.env.resources
    case FragmentUnsupported => NamesResource(s, reference) && !IsPointer(reference)
    case PointerUnresolved(written) => written == reference && NamesResource(s, reference) && IsPointer(reference)
    case _ => false
  }

  ghost predicate NamesResource(s: Scope, reference: string) {
    exists target :: Names(s.key, reference, target) && target in s.env.resources
  }

  ghost predicate IsPointer(reference: string) {
    exists resource, fragment, names :: Parts(reference, resource, fragment) && Spells(fragment, names)
  }

  /** The first of the schemas that refuses the value gives the fault. */
  ghost predicate FirstRefusal(s: Scope, value: Json, parts: seq<Json>, path: string, v: Verdict) {
    exists i :: 0 <= i < |parts| && Refuses(s, value, parts[i], path, v) && forall j :: 0 <= j < i ==> Fits(s, value, parts[j], path)
  }

  ghost predicate AllOfFault(s: Scope, value: Json, schema: Json, path: string, v: Verdict) {
    match schema.Get("allOf")
    case Some(Arr(parts)) => FirstRefusal(s, value, parts, path, v)
    case _ => false
  }

  ghost predicate AnyOfFault(s: Scope, value: Json, schema: Json, path: string, v: Verdict) {
    match schema.Get("anyOf")
    case Some(Arr(parts)) =>
      (forall i :: 0 <= i < |parts| ==> !Fits(s, value, parts[i], path))
      && if parts == [] then v == Invalid(path, NoBranchMatches) else Refuses(s, value, parts[0], path, v)
    case _ => false
  }

  ghost predicate OnlyFits(s: Scope, value: Json, parts: seq<Json>, path: string, i: nat) {
    i < |parts| && forall j :: 0 <= j < |parts| ==> (Fits(s, value, parts[j], path) <==> j == i)
  }

  ghost predicate OneOfFault(s: Scope, value: Json, schema: Json, path: string, v: Verdict) {
    match schema.Get("oneOf")
    case Some(Arr(parts)) => v == Invalid(path, NotExactlyOneBranch) && !exists i :: OnlyFits(s, value, parts, path, i)
    case _ => false
  }

  ghost predicate ConditionFault(s: Scope, value: Json, schema: Json, path: string, v: Verdict) {
    match schema.Get("if")
    case Some(condition) =>
      exists arm :: schema.Get(if Fits(s, value, condition, path) then "then" else "else") == Some(arm) && Refuses(s, value, arm, path, v)
    case None => false
  }

  ghost predicate ProhibitedFault(s: Scope, value: Json, schema: Json, path: string, v: Verdict) {
    match schema.Get("not")
    case Some(prohibited) => Fits(s, value, prohibited, path) && v == Invalid(path, ProhibitedMatch)
    case None => false
  }

  /** The groups that look at no other schema. */
  ghost predicate LocalFault(s: Scope, value: Json, schema: Json, g: Group, path: string, v: Verdict) {
    match g
    case Typed =>
      !AllowsType(schema, value)
      && v == Invalid(path,
                if schema.Get("type").Some? && !schema.Get("type").value.Str? && !schema.Get("type").value.Arr? then TypeKeywordInvalid
                else TypeMismatch)
    case Constant => schema.Get("const").Some? && schema.Get("const").value != value && v == Invalid(path, ConstMismatch)
    case Enumerated => (exists values :: schema.Get("enum") == Some(Arr(values)) && value !in values) && v == Invalid(path, OutsideEnum)
    case LeastLength => value.Str? && exists low :: TooLow(schema, "minLength", |value.text|, low) && v == Invalid(path, TooShort(low))
    case MostLength => value.Str? && exists high :: TooHigh(schema, "maxLength", |value.text|, high) && v == Invalid(path, TooLong(high))
    case Pattern =>
      value.Str? && exists p :: schema.Get("pattern") == Some(Str(p)) && !Finds(s.env, p, value.text)
                                && v == Invalid(path, if s.env.isPattern(p) then PatternMismatch(p) else PatternInvalid)
    case Least => value.Number? && (exists low :: schema.Get("minimum") == Some(Number(low)) && value.number < low) && v == Invalid(path, BelowMinimum)
    case Most => value.Number? && (exists high :: schema.Get("maximum") == Some(Number(high)) && value.number > high) && v == Invalid(path, AboveMaximum)
    case _ => false
  }

  ghost predicate TooLow(schema: Json, keyword: string, n: nat, low: nat) {
    schema.Get(keyword) == Some(Number(low)) && low <= 0xFFFF_FFFF_FFFF_FFFF && n < low
  }

  ghost predicate TooHigh(schema: Json, keyword: string, n: nat, high: nat) {
    schema.Get(keyword) == Some(Number(high)) && high <= 0xFFFF_FFFF_FFFF_FFFF && n > high
  }

  ghost predicate ItemsFault(s: Scope, values: seq<Json>, schema: Json, path: string, v: Verdict) {
    match schema.Get("items")
    case None => false
    case Some(Obj(fields)) =>
      exists i :: 0 <= i < |values| && Refuses(s, values[i], Obj(fields), Element(path, i), v)
                  && forall j :: 0 <= j < i ==> Fits(s, values[j], Obj(fields), Element(path, j))
    case Some(Arr(tuple)) =>
      exists i :: 0 <= i < |values| && i < |tuple| && Refuses(s, values[i], tuple[i], Element(path, i), v)
                  && forall j :: 0 <= j < i ==> Fits(s, values[j], tuple[j], Element(path, j))
    case Some(_) => v == Invalid(path, ItemsKeywordInvalid)
  }

  ghost predicate ArrayFault(s: Scope, values: seq<Json>, schema: Json, g: Group, path: string, v: Verdict) {
    match g
    case FewestItems => exists low :: TooLow(schema, "minItems", |values|, low) && v == Invalid(path, TooFewItems(low))
    case MostItems => exists high :: TooHigh(schema, "maxItems", |values|, high) && v == Invalid(path, TooManyItems(high))
    case Uniqueness => schema.Get("uniqueItems") == Some(Bool(true)) && !Distinct(values) && v == Invalid(path, RepeatedItems)
    case Items => ItemsFault(s, values, schema, path, v)
    case Contained =>
      (exists part :: schema.Get("contains") == Some(part) && forall i :: 0 <= i < |values| ==> !Fits(s, values[i], part, path))
      && v == Invalid(path, NothingContained)
    case _ => false
  }

  ghost predicate RequiredFault(fields: map<string, Json>, names: seq<Json>, path: string, v: Verdict) {
    exists i :: 0 <= i < |names| && (forall j :: 0 <= j < i ==> names[j].Str? && names[j].text in fields)
                && if !names[i].Str? then v == Invalid(path, RequiredKeywordInvalid)
                   else names[i].text !in fields && v == Invalid(Below(path, names[i].text), PropertyMissing(names[i].text))
  }

  /** Another member that is visited before this one. */
  ghost predicate Before(other: string, name: string) {
    other != name && StringLe(other, name)
  }

  ghost predicate NamesFault(s: Scope, fields: map<string, Json>, part: Json, path: string, v: Verdict) {
    exists name :: NameFault(s, fields, part, path, name, v)
  }

  ghost predicate NameFault(s: Scope, fields: map<string, Json>, part: Json, path: string, name: string, v: Verdict) {
    name in fields && Refuses(s, Str(name), part, Below(path, name), v)
    && forall other :: other in fields && Before(other, name) ==> Fits(s, Str(other), part, Below(path, other))
  }

  ghost predicate PropertiesFault(s: Scope, fields: map<string, Json>, table: map<string, Json>, path: string, v: Verdict) {
    exists name :: PropertyFault(s, fields, table, path, name, v)
  }

  ghost predicate PropertyFault(
      s: Scope, fields: map<string, Json>, table: map<string, Json>, path: string, name: string, v: Verdict) {
    name in table && name in fields && Refuses(s, fields[name], table[name], Below(path, name), v)
    && forall other :: other in table && other in fields && Before(other, name) ==>
         Fits(s, fields[other], table[other], Below(path, other))
  }

  ghost predicate OnePatternFault(s: Scope, fields: map<string, Json>, pattern: string, part: Json, path: string, v: Verdict) {
    if !s.env.isPattern(pattern) then v == Invalid(path, PatternInvalid)
    else exists name :: FoundFault(s, fields, pattern, part, path, name, v)
  }

  ghost predicate FoundFault(
      s: Scope, fields: map<string, Json>, pattern: string, part: Json, path: string, name: string, v: Verdict) {
    name in fields && Finds(s.env, pattern, name) && Refuses(s, fields[name], part, Below(path, name), v)
    && forall other :: other in fields && Finds(s.env, pattern, other) && Before(other, name) ==>
         Fits(s, fields[other], part, Below(path, other))
  }

  ghost predicate PatternsFault(s: Scope, fields: map<string, Json>, table: map<string, Json>, path: string, v: Verdict) {
    exists pattern :: PatternFault(s, fields, table, path, pattern, v)
  }

  ghost predicate PatternFault(
      s: Scope, fields: map<string, Json>, table: map<string, Json>, path: string, pattern: string, v: Verdict) {
    pattern in table && OnePatternFault(s, fields, pattern, table[pattern], path, v)
    && forall other, w :: other in table && Before(other, pattern) ==> !OnePatternFault(s, fields, other, table[other], path, w)
  }

  /** What an undeclared member meets. */
  ghost predicate OpenFault(s: Scope, member: Json, name: string, additional: Json, path: string, v: Verdict) {
    match additional
    case Bool(allowed) => !allowed && v == Invalid(Below(path, name), PropertyNotAllowed(name))
    case Obj(_) => Refuses(s, member, additional, Below(path, name), v)
    case _ => v == Invalid(path, AdditionalKeywordInvalid)
  }

  ghost predicate AdditionalFault(s: Scope, fields: map<string, Json>, schema: Json, additional: Json, path: string, v: Verdict) {
    exists name :: UndeclaredFault(s, fields, schema, additional, path, name, v)
  }

  ghost predicate UndeclaredFault(
      s: Scope, fields: map<string, Json>, schema: Json, additional: Json, path: string, name: string, v: Verdict) {
    name in fields && !Declared(s.env, schema, name) && OpenFault(s, fields[name], name, additional, path, v)
    && forall other, w :: other in fields && !Declared(s.env, schema, other) && Before(other, name) ==>
         !OpenFault(s, fields[other], other, additional, path, w)
  }

  ghost predicate ObjectFault(s: Scope, fields: map<string, Json>, schema: Json, g: Group, path: string, v: Verdict) {
    match g
    case Required => exists names :: schema.Get("required") == Some(Arr(names)) && RequiredFault(fields, names, path, v)
    case FewestProperties => exists low :: TooLow(schema, "minProperties", |fields|, low) && v == Invalid(path, TooFewProperties(low))
    case PropertyNames => exists part :: schema.Get("propertyNames") == Some(part) && NamesFault(s, fields, part, path, v)
    case Properties => exists table :: schema.Get("properties") == Some(Obj(table)) && PropertiesFault(s, fields, table, path, v)
    case PatternProperties => exists table :: schema.Get("patternProperties") == Some(Obj(table)) && PatternsFault(s, fields, table, path, v)
    case AdditionalProperties =>
      exists additional :: schema.Get("additionalProperties") == Some(additional) && AdditionalFault(s, fields, schema, additional, path, v)
    case _ => false
  }

  ghost predicate CompositionFault(s: Scope, value: Json, schema: Json, g: Group, path: string, v: Verdict) {
    match g
    case AllOf => AllOfFault(s, value, schema, path, v)
    case AnyOf => AnyOfFault(s, value, schema, path, v)
    case OneOf => OneOfFault(s, value, schema, path, v)
    case Condition => ConditionFault(s, value, schema, path, v)
    case Prohibited => ProhibitedFault(s, value, schema, path, v)
    case _ => false
  }

  predicate OnCompositions(g: Group) {
    g.AllOf? || g.AnyOf? || g.OneOf? || g.Condition? || g.Prohibited?
  }

  predicate OnArrays(g: Group) {
    g.FewestItems? || g.MostItems? || g.Uniqueness? || g.Items? || g.Contained?
  }

  predicate OnObjects(g: Group) {
    g.Required? || g.FewestProperties? || g.PropertyNames? || g.Properties? || g.PatternProperties? || g.AdditionalProperties?
  }

  /** The group refuses the value with this verdict. */
  ghost predicate Faults(s: Scope, value: Json, schema: Json, path: string, g: Group, v: Verdict) {
    v.Invalid?
    && if g.Reference? then ReferenceFault(s, value, schema, path, v)
       else if OnCompositions(g) then CompositionFault(s, value, schema, g, path, v)
       else if OnArrays(g) then value.Arr? && ArrayFault(s, value.items, schema, g, path, v)
       else if OnObjects(g) then value.Obj? && ObjectFault(s, value.fields, schema, g, path, v)
       else LocalFault(s, value, schema, g, path, v)
  }

  /** The verdict of the first group that refuses the value, or `Valid`. */
  ghost predicate First(s: Scope, value: Json, schema: Json, path: string, groups: seq<Group>, v: Verdict) {
    if groups == [] then v == Valid
    else Faults(s, value, schema, path, groups[0], v)
         || ((forall w :: !Faults(s, value, schema, path, groups[0], w)) && First(s, value, schema, path, groups[1..], v))
  }

  /* ---------- loops that stop at the first refusal ---------- */

  /** Some element stops the loop, and none before it does. */
  ghost predicate Stops<T>(elements: seq<T>, stops: T -> bool, passes: T -> bool) {
    exists i :: 0 <= i < |elements| && stops(elements[i]) && forall j :: 0 <= j < i ==> passes(elements[j])
  }

  lemma StopsStep<T>(elements: seq<T>, stops: T -> bool, passes: T -> bool)
    requires elements != []
    ensures Stops(elements, stops, passes) <==>
              stops(elements[0]) || (passes(elements[0]) && Stops(elements[1..], stops, passes))
  {
    var rest := elements[1..];
    if Stops(elements, stops, passes) && !stops(elements[0]) {
      var i :| 0 <= i < |elements| && stops(elements[i]) && forall j :: 0 <= j < i ==> passes(elements[j]);
      assert stops(rest[i - 1]) && passes(elements[0]);
      assert forall j :: 0 <= j < i - 1 ==> rest[j] == elements[j + 1];
    }
    if passes(elements[0]) && Stops(rest, stops, passes) {
      var i :| 0 <= i < |rest| && stops(rest[i]) && forall j :: 0 <= j < i ==> passes(rest[j]);
      assert stops(elements[i + 1]);
      forall j | 0 <= j < i + 1 ensures passes(elements[j]) {
        assert j > 0 ==> elements[j] == rest[j - 1];
      }
    }
  }

  lemma VisitedBefore(fields: map<string, Json>)
    ensures var names := NamesOf(fields);
            forall i, j :: 0 <= i < |names| && 0 <= j < |names| ==> (j < i <==> Before(names[j], names[i]))
  {
    var names := NamesOf(fields);
    forall i, j | 0 <= i < |names| && 0 <= j < |names| ensures j < i <==> Before(names[j], names[i]) {
      if i < j && StringLe(names[j], names[i]) {
        StringLeAntisymmetric(names[i], names[j]);
      }
    }
  }

  /** A member that stops the visit, every member before it passing. */
  ghost predicate StopsAt(fields: map<string, Json>, stops: string -> bool, passes: string -> bool, name: string) {
    name in fields && stops(name) && forall other :: other in fields && Before(other, name) ==> passes(other)
  }

  lemma StopsAtIndex(fields: map<string, Json>, stops: string -> bool, passes: string -> bool, i: nat)
    requires i < |NamesOf(fields)|
    ensures var names := NamesOf(fields);
            StopsAt(fields, stops, passes, names[i]) <==> stops(names[i]) && forall j :: 0 <= j < i ==> passes(names[j])
  {
    hide Before;
    var names := NamesOf(fields);
    VisitedBefore(fields);
    if stops(names[i]) && forall j :: 0 <= j < i ==> passes(names[j]) {
      forall other | other in fields && Before(other, names[i]) ensures passes(other) {
        var j :| 0 <= j < |names| && names[j] == other;
      }
    }
    hide NamesOf;
  }

  /** Members are visited in the order of their names. */
  lemma InNameOrder(fields: map<string, Json>, stops: string -> bool, passes: string -> bool)
    ensures Stops(NamesOf(fields), stops, passes) <==> exists name :: StopsAt(fields, stops, passes, name)
  {
    var names := NamesOf(fields);
    forall i: nat | i < |names|
      ensures StopsAt(fields, stops, passes, names[i]) <==> stops(names[i]) && forall j :: 0 <= j < i ==> passes(names[j])
    {
      StopsAtIndex(fields, stops, passes, i);
    }
    if name :| StopsAt(fields, stops, passes, name) {
      var i :| 0 <= i < |names| && names[i] == name;
    }
    hide NamesOf, StopsAt;
  }

  /* ---------- compositions ---------- */

  lemma Given(s: Scope, value: Json, schema: Json, path: string, v: Verdict)
    requires Located(s.env, schema, s.key)
    ensures Refuses(s, value, schema, path, v) <==> v.Invalid? && Eval(s.env, s.active, value, schema, s.key, path) == v
    ensures Fits(s, value, schema, path) <==> Eval(s.env, s.active, value, schema, s.key, path).Valid?
  {
  }

  ghost function PartRefuses(s: Scope, value: Json, path: string, v: Verdict): Json -> bool {
    part => Refuses(s, value, part, path, v)
  }

  ghost function PartFits(s: Scope, value: Json, path: string): Json -> bool {
    part => Fits(s, value, part, path)
  }

  lemma {:induction false} AllLoops(s: Scope, value: Json, list: Json, i: nat, path: string, v: Verdict)
    requires Located(s.env, list, s.key) && list.Arr? && i <= |list.items| && v.Invalid?
    ensures EvalAll(s.env, s.active, value, list, i, s.key, path) == v <==>
              Stops(list.items[i..], PartRefuses(s, value, path, v), PartFits(s, value, path))
    decreases |list.items| - i
  {
    hide Eval, Located, Gives;
    if i < |list.items| {
      var parts := list.items[i..];
      AllLoops(s, value, list, i + 1, path, v);
      ChildLocated(s.env, list, s.key);
      Given(s, value, list.items[i], path, v);
      StopsStep(parts, PartRefuses(s, value, path, v), PartFits(s, value, path));
      assert parts[0] == list.items[i] && parts[1..] == list.items[i + 1..];
      hide Stops;
    }
  }

  lemma AllOfMeans(s: Scope, value: Json, schema: Json, path: string, v: Verdict)
    requires Located(s.env, schema, s.key) && schema.Obj? && v.Invalid?
    requires HasList(schema, "allOf") ==> Located(s.env, schema.fields["allOf"], s.key)
    ensures AllOfFault(s, value, schema, path, v) <==>
              HasList(schema, "allOf") && EvalAll(s.env, s.active, value, schema.fields["allOf"], 0, s.key, path) == v
  {
    hide EvalAll, Located, Refuses, Fits;
    if HasList(schema, "allOf") {
      var list := schema.fields["allOf"];
      AllLoops(s, value, list, 0, path, v);
      assert list.items[0..] == list.items;
    }
  }

  lemma {:induction false} BranchLoops(s: Scope, value: Json, list: Json, i: nat, path: string, tally: Tally)
    requires Located(s.env, list, s.key) && list.Arr? && i <= |list.items|
    requires forall j :: 0 <= j < |list.items| ==> Located(s.env, list.items[j], s.key)
    ensures var result := EvalBranches(s.env, s.active, value, list, i, s.key, path, tally);
            var matching := Matching(s.env, s.active, value, list, i, s.key, path);
            && result.matches == tally.matches + |matching|
            && (tally.firstError.Some? ==> result.firstError == tally.firstError)
            && (tally.firstError.None? && matching == {} ==>
                  result.firstError == if i == |list.items| then None else Some(Eval(s.env, s.active, value, list.items[i], s.key, path)))
    decreases |list.items| - i
  {
    hide Eval, Located;
    if i < |list.items| {
      BranchLoops(s, value, list, i + 1, path, Count(tally, Eval(s.env, s.active, value, list.items[i], s.key, path)));
      OneMoreMatch(s.env, s.active, value, list, i, s.key, path);
      if Matching(s.env, s.active, value, list, i, s.key, path) == {} {
        assert i !in Matching(s.env, s.active, value, list, i, s.key, path);
      }
    } else {
      assert Matching(s.env, s.active, value, list, i, s.key, path) == {};
    }
  }

  lemma BranchesMean(s: Scope, value: Json, list: Json, path: string)
    requires Located(s.env, list, s.key) && list.Arr?
    requires forall j :: 0 <= j < |list.items| ==> Located(s.env, list.items[j], s.key)
    ensures var tally := EvalBranches(s.env, s.active, value, list, 0, s.key, path);
            && (tally.matches > 0 <==> exists i :: 0 <= i < |list.items| && Fits(s, value, list.items[i], path))
            && (tally.matches == 1 <==> exists i :: OnlyFits(s, value, list.items, path, i))
            && (tally.matches == 0 ==>
                  tally.firstError == if list.items == [] then None else Some(Eval(s.env, s.active, value, list.items[0], s.key, path)))
  {
    hide Eval, EvalBranches, Located, Gives;
    var matching := Matching(s.env, s.active, value, list, 0, s.key, path);
    BranchLoops(s, value, list, 0, path, Tally(0, None));
    SingleMatch(matching);
    forall i: nat ensures i in matching <==> i < |list.items| && Fits(s, value, list.items[i], path) {
      if i < |list.items| {
        Given(s, value, list.items[i], path, Valid);
      }
    }
    forall i: nat ensures OnlyFits(s, value, list.items, path, i) <==> i in matching && forall j :: j in matching ==> j == i {
    }
    if |matching| == 0 {
      assert matching == {};
    }
    hide Matching, OnlyFits, Fits;
    assert |matching| > 0 <==> exists i :: i in matching;
  }

  lemma AnyOfMeans(s: Scope, value: Json, schema: Json, path: string, v: Verdict)
    requires Located(s.env, schema, s.key) && schema.Obj? && v.Invalid?
    requires HasList(schema, "anyOf") ==> Located(s.env, schema.fields["anyOf"], s.key)
    ensures AnyOfFault(s, value, schema, path, v) <==>
              HasList(schema, "anyOf")
              && AnyOfVerdict(EvalBranches(s.env, s.active, value, schema.fields["anyOf"], 0, s.key, path), path) == v
  {
    hide Eval, EvalBranches, Located, Gives;
    if HasList(schema, "anyOf") {
      var list := schema.fields["anyOf"];
      ChildLocated(s.env, list, s.key);
      BranchesMean(s, value, list, path);
      if list.items != [] {
        Given(s, value, list.items[0], path, v);
      }
      hide Fits, Refuses;
    }
  }

  lemma OneOfMeans(s: Scope, value: Json, schema: Json, path: string, v: Verdict)
    requires Located(s.env, schema, s.key) && schema.Obj? && v.Invalid?
    requires HasList(schema, "oneOf") ==> Located(s.env, schema.fields["oneOf"], s.key)
    ensures OneOfFault(s, value, schema, path, v) <==>
              HasList(schema, "oneOf")
              && OneOfVerdict(EvalBranches(s.env, s.active, value, schema.fields["oneOf"], 0, s.key, path), path) == v
  {
    hide Eval, EvalBranches, Located, OnlyFits;
    if HasList(schema, "oneOf") {
      var list := schema.fields["oneOf"];
      ChildLocated(s.env, list, s.key);
      BranchesMean(s, value, list, path);
    }
  }

  lemma ConditionMeans(s: Scope, value: Json, schema: Json, path: string, v: Verdict)
    requires Located(s.env, schema, s.key) && schema.Obj? && v.Invalid?
    ensures ConditionFault(s, value, schema, path, v) <==> EvalCondition(s.env, s.active, value, schema, s.key, path) == v
  {
    hide Eval, Located, Gives;
    ChildLocated(s.env, schema, s.key);
    if "if" in schema.fields {
      Given(s, value, schema.fields["if"], path, Valid);
      if "then" in schema.fields {
        Given(s, value, schema.fields["then"], path, v);
      }
      if "else" in schema.fields {
        Given(s, value, schema.fields["else"], path, v);
      }
      hide Fits, Refuses;
    }
  }

  lemma ProhibitedMeans(s: Scope, value: Json, schema: Json, path: string, v: Verdict)
    requires Located(s.env, schema, s.key) && schema.Obj? && v.Invalid?
    ensures ProhibitedFault(s, value, schema, path, v) <==> EvalNot(s.env, s.active, value, schema, s.key, path) == v
  {
    hide Eval, Located, Gives;
    ChildLocated(s.env, schema, s.key);
    if "not" in schema.fields {
      Given(s, value, schema.fields["not"], path, Valid);
      hide Fits;
    }
  }

  /* ---------- references ---------- */

  lemma ReferenceMeans(s: Scope, value: Json, schema: Json, path: string, v: Verdict)
    requires Located(s.env, schema, s.key) && v.Invalid?
    ensures ReferenceFault(s, value, schema, path, v) <==> EvalReference(s.env, s.active, value, schema, s.key, path) == v
  {
    hide Eval, Leads, Names, Located;
    match schema.Get("$ref") {
      case Some(Str(reference)) =>
        var name := s.key + "#" + reference;
        assert name == ReferenceKey(s.key, reference);
        forall target, next ensures ResolveReference(s.env, s.key, reference) == Ok((target, next)) <==> Leads(s.env, s.key, reference, target, next) {
          ResolvesExactly(s.env, s.key, reference, target, next);
        }
        match ResolveReference(s.env, s.key, reference) {
          case Err(reason) =>
            UnresolvableMeans(s, reference, v.reason);
          case Ok(target) =>
            LeadsInside(s.env, s.key, reference, target.0, target.1);
            Given(Scope(s.env, s.active + {name}, target.0), value, target.1, path, v);
            hide Refuses, Unresolvable;
        }
      case _ =>
    }
  }

  lemma UnresolvableMeans(s: Scope, reference: string, reason: Reason)
    requires ResolveReference(s.env, s.key, reference).Err?
    ensures Unresolvable(s, reference, reason) <==> ResolveReference(s.env, s.key, reference) == Err(reason)
  {
    FailsExactly(s.env, s.key, reference);
    NamesExactly(s.key, reference, TargetKey(s.key, reference));
    assert NamesResource(s, reference) <==> TargetKey(s.key, reference) in s.env.resources by {
      if target :| Names(s.key, reference, target) && target in s.env.resources {
        NamesExactly(s.key, reference, target);
      }
    }
    hide Names, Parts, Spells;
  }

  /* ---------- arrays ---------- */

  lemma {:induction false} ItemLoops(s: Scope, values: seq<Json>, i: nat, part: Json, path: string, v: Verdict)
    requires Located(s.env, part, s.key) && i <= |values| && v.Invalid?
    ensures EvalItems(s.env, s.active, values, i, part, s.key, path) == v <==>
              exists k :: i <= k < |values| && Refuses(s, values[k], part, Element(path, k), v)
                          && forall j :: i <= j < k ==> Fits(s, values[j], part, Element(path, j))
    decreases |values| - i
  {
    hide Eval, Located, Gives, IndexPath;
    if i < |values| {
      ItemLoops(s, values, i + 1, part, path, v);
      Elements(path, i);
      Given(s, values[i], part, Element(path, i), v);
      hide Refuses, Fits, Element;
      assert Fits(s, values[i], part, Element(path, i)) ==> !Refuses(s, values[i], part, Element(path, i), v);
    }
  }

  lemma Elements(path: string, i: nat)
    ensures Element(path, i) == IndexPath(path, i)
  {
  }

  lemma {:induction false} TupleLoops(s: Scope, values: seq<Json>, i: nat, tuple: Json, path: string, v: Verdict)
    requires Located(s.env, tuple, s.key) && tuple.Arr? && i <= |values| && v.Invalid?
    ensures EvalTuple(s.env, s.active, values, i, tuple, s.key, path) == v <==>
              exists k :: i <= k < |values| && k < |tuple.items| && Refuses(s, values[k], tuple.items[k], Element(path, k), v)
                          && forall j :: i <= j < k ==> Fits(s, values[j], tuple.items[j], Element(path, j))
    decreases |values| - i
  {
    hide Eval, Located, Gives, IndexPath;
    if i < |values| {
      TupleLoops(s, values, i + 1, tuple, path, v);
      Elements(path, i);
      ChildLocated(s.env, tuple, s.key);
      if i < |tuple.items| {
        Given(s, values[i], tuple.items[i], Element(path, i), v);
        hide Refuses, Fits, Element;
      }
    }
  }

  lemma {:induction false} ContainedLoops(s: Scope, values: seq<Json>, i: nat, part: Json, path: string)
    requires Located(s.env, part, s.key) && i <= |values|
    ensures CountContained(s.env, s.active, values, i, part, s.key, path) == 0 <==>
              forall k :: i <= k < |values| ==> !Fits(s, values[k], part, path)
    decreases |values| - i
  {
    hide Eval, Located, Gives;
    if i < |values| {
      ContainedLoops(s, values, i + 1, part, path);
      Given(s, values[i], part, path, Valid);
      hide Fits;
    }
  }

  function EvalItemsGroup(s: Scope, values: seq<Json>, schema: Json, path: string): Verdict
    requires Located(s.env, schema, s.key) && schema.Obj?
  {
    ChildLocated(s.env, schema, s.key);
    match schema.Get("items")
    case None => Valid
    case Some(Obj(fields)) => EvalItems(s.env, s.active, values, 0, schema.fields["items"], s.key, path)
    case Some(Arr(tuple)) => EvalTuple(s.env, s.active, values, 0, schema.fields["items"], s.key, path)
    case Some(_) => Invalid(path, ItemsKeywordInvalid)
  }

  lemma ItemsMean(s: Scope, values: seq<Json>, schema: Json, path: string, v: Verdict)
    requires Located(s.env, schema, s.key) && schema.Obj? && v.Invalid?
    ensures ItemsFault(s, values, schema, path, v) <==> EvalItemsGroup(s, values, schema, path) == v
  {
    hide EvalItems, EvalTuple, Located, Refuses, Fits, Element;
    ChildLocated(s.env, schema, s.key);
    match schema.Get("items") {
      case Some(Obj(fields)) => ItemLoops(s, values, 0, schema.fields["items"], path, v);
      case Some(Arr(tuple)) => TupleLoops(s, values, 0, schema.fields["items"], path, v);
      case _ =>
    }
  }

  function EvalContained(s: Scope, values: seq<Json>, schema: Json, path: string): Verdict
    requires Located(s.env, schema, s.key) && schema.Obj?
  {
    ChildLocated(s.env, schema, s.key);
    if "contains" in schema.fields && CountContained(s.env, s.active, values, 0, schema.fields["contains"], s.key, path) == 0
    then Invalid(path, NothingContained) else Valid
  }

  lemma ContainedMeans(s: Scope, values: seq<Json>, schema: Json, path: string, v: Verdict)
    requires Located(s.env, schema, s.key) && schema.Obj? && v.Invalid?
    ensures ArrayFault(s, values, schema, Contained, path, v) <==> EvalContained(s, values, schema, path) == v
  {
    hide CountContained, Located, Fits;
    ChildLocated(s.env, schema, s.key);
    if "contains" in schema.fields {
      ContainedLoops(s, values, 0, schema.fields["contains"], path);
      assert schema.Get("contains") == Some(schema.fields["contains"]);
    }
  }

  /* ---------- objects ---------- */

  lemma Members(path: string, name: string)
    ensures Below(path, name) == PropertyPath(path, name)
  {
  }

  ghost function RequiredStop(fields: map<string, Json>, path: string, v: Verdict): Json -> bool {
    (name: Json) =>
      if !name.Str? then v == Invalid(path, RequiredKeywordInvalid)
      else name.text !in fields && v == Invalid(Below(path, name.text), PropertyMissing(name.text))
  }

  ghost function IsPresent(fields: map<string, Json>): Json -> bool {
    (name: Json) => name.Str? && name.text in fields
  }

  lemma {:induction false} RequiredLoops(fields: map<string, Json>, names: seq<Json>, path: string, v: Verdict)
    requires v.Invalid?
    ensures CheckRequired(fields, names, path) == v <==>
              Stops(names, RequiredStop(fields, path, v), IsPresent(fields))
  {
    if names != [] {
      RequiredLoops(fields, names[1..], path, v);
      StopsStep(names, RequiredStop(fields, path, v), IsPresent(fields));
      hide Stops;
    }
  }

  lemma RequiredMeans(schema: Json, fields: map<string, Json>, path: string, v: Verdict)
    requires v.Invalid?
    ensures (exists names :: schema.Get("required") == Some(Arr(names)) && RequiredFault(fields, names, path, v)) <==>
              CheckRequired(fields, RequiredNames(schema), path) == v
  {
    var names := RequiredNames(schema);
    RequiredLoops(fields, names, path, v);
    assert RequiredFault(fields, names, path, v) <==>
        Stops(names, RequiredStop(fields, path, v), IsPresent(fields));
    hide CheckRequired, RequiredFault, Stops;
    assert CheckRequired(fields, [], path) != v by {
      RequiredNothing(fields, path);
    }
  }

  lemma RequiredNothing(fields: map<string, Json>, path: string)
    ensures CheckRequired(fields, [], path).Valid?
  {
  }

  ghost function NameRefuses(s: Scope, part: Json, path: string, v: Verdict): string -> bool {
    name => Refuses(s, Str(name), part, Below(path, name), v)
  }

  ghost function NameFits(s: Scope, part: Json, path: string): string -> bool {
    name => Fits(s, Str(name), part, Below(path, name))
  }

  lemma {:induction false} NameLoops(s: Scope, names: seq<string>, part: Json, path: string, v: Verdict)
    requires Located(s.env, part, s.key) && v.Invalid?
    ensures EvalNames(s.env, s.active, names, part, s.key, path) == v <==>
              Stops(names, NameRefuses(s, part, path, v), NameFits(s, part, path))
  {
    hide Eval, Located, Gives;
    if names != [] {
      NameLoops(s, names[1..], part, path, v);
      Members(path, names[0]);
      Given(s, Str(names[0]), part, Below(path, names[0]), v);
      StopsStep(names, NameRefuses(s, part, path, v), NameFits(s, part, path));
      hide Stops, Below, PropertyPath;
    }
  }

  lemma NameStops(s: Scope, fields: map<string, Json>, part: Json, path: string, name: string, v: Verdict)
    ensures StopsAt(fields, NameRefuses(s, part, path, v), NameFits(s, part, path), name) <==> NameFault(s, fields, part, path, name, v)
  {
    hide Refuses, Fits, Below, Before;
  }

  lemma NamesMean(s: Scope, fields: map<string, Json>, part: Json, path: string, v: Verdict)
    requires Located(s.env, part, s.key) && v.Invalid?
    ensures NamesFault(s, fields, part, path, v) <==> EvalNames(s.env, s.active, NamesOf(fields), part, s.key, path) == v
  {
    hide EvalNames, Located, Stops, StopsAt, NameFault, NamesOf, NameRefuses, NameFits;
    NameLoops(s, NamesOf(fields), part, path, v);
    InNameOrder(fields, NameRefuses(s, part, path, v), NameFits(s, part, path));
    forall name
      ensures StopsAt(fields, NameRefuses(s, part, path, v), NameFits(s, part, path), name) <==> NameFault(s, fields, part, path, name, v)
    {
      NameStops(s, fields, part, path, name, v);
    }
  }

  ghost function MemberRefuses(s: Scope, fields: map<string, Json>, table: map<string, Json>, path: string, v: Verdict): string -> bool {
    name => name in table && name in fields && Refuses(s, fields[name], table[name], Below(path, name), v)
  }

  ghost function MemberFits(s: Scope, fields: map<string, Json>, table: map<string, Json>, path: string): string -> bool {
    name => name in table && name in fields ==> Fits(s, fields[name], table[name], Below(path, name))
  }

  lemma {:induction false} PropertyLoops(s: Scope, fields: map<string, Json>, names: seq<string>, properties: Json, path: string, v: Verdict)
    requires Located(s.env, properties, s.key) && properties.Obj? && Within(names, properties.fields) && v.Invalid?
    ensures EvalProperties(s.env, s.active, fields, names, properties, s.key, path) == v <==>
              Stops(names, MemberRefuses(s, fields, properties.fields, path, v), MemberFits(s, fields, properties.fields, path))
  {
    hide Eval, Located, Gives;
    if names != [] {
      var name := names[0];
      PropertyLoops(s, fields, names[1..], properties, path, v);
      ChildLocated(s.env, properties, s.key);
      Members(path, name);
      if name in fields {
        Given(s, fields[name], properties.fields[name], Below(path, name), v);
      }
      StopsStep(names, MemberRefuses(s, fields, properties.fields, path, v), MemberFits(s, fields, properties.fields, path));
      hide Stops, Below, PropertyPath;
    }
  }

  lemma PropertiesMean(s: Scope, fields: map<string, Json>, properties: Json, path: string, v: Verdict)
    requires Located(s.env, properties, s.key) && properties.Obj? && v.Invalid?
    ensures PropertiesFault(s, fields, properties.fields, path, v) <==>
              EvalProperties(s.env, s.active, fields, NamesOf(properties.fields), properties, s.key, path) == v
  {
    hide EvalProperties, Located, Refuses, Fits, Below, Before, Stops;
    PropertyLoops(s, fields, NamesOf(properties.fields), properties, path, v);
    InNameOrder(properties.fields, MemberRefuses(s, fields, properties.fields, path, v), MemberFits(s, fields, properties.fields, path));
    forall name ensures StopsAt(properties.fields, MemberRefuses(s, fields, properties.fields, path, v), MemberFits(s, fields, properties.fields, path), name) <==> PropertyFault(s, fields, properties.fields, path, name, v) {
    }
    hide StopsAt, PropertyFault;
  }

  ghost function FoundRefuses(s: Scope, fields: map<string, Json>, pattern: string, part: Json, path: string, v: Verdict): string -> bool {
    name => name in fields && Finds(s.env, pattern, name) && Refuses(s, fields[name], part, Below(path, name), v)
  }

  ghost function FoundFits(s: Scope, fields: map<string, Json>, pattern: string, part: Json, path: string): string -> bool {
    name => name in fields && Finds(s.env, pattern, name) ==> Fits(s, fields[name], part, Below(path, name))
  }

  lemma {:induction false} MatchingLoops(
      s: Scope, fields: map<string, Json>, names: seq<string>, pattern: string, part: Json, path: string, v: Verdict)
    requires Located(s.env, part, s.key) && Within(names, fields) && v.Invalid?
    ensures EvalMatching(s.env, s.active, fields, names, pattern, part, s.key, path) == v <==>
              Stops(names, FoundRefuses(s, fields, pattern, part, path, v), FoundFits(s, fields, pattern, part, path))
  {
    hide Eval, Located, Gives;
    if names != [] {
      var name := names[0];
      MatchingLoops(s, fields, names[1..], pattern, part, path, v);
      Members(path, name);
      Given(s, fields[name], part, Below(path, name), v);
      StopsStep(names, FoundRefuses(s, fields, pattern, part, path, v), FoundFits(s, fields, pattern, part, path));
      hide Stops, Below, PropertyPath;
    }
  }

  lemma OnePatternMeans(s: Scope, fields: map<string, Json>, pattern: string, part: Json, path: string, v: Verdict)
    requires Located(s.env, part, s.key) && v.Invalid?
    ensures OnePatternFault(s, fields, pattern, part, path, v) <==>
              v == if !s.env.isPattern(pattern) then Invalid(path, PatternInvalid)
                   else EvalMatching(s.env, s.active, fields, NamesOf(fields), pattern, part, s.key, path)
  {
    hide EvalMatching, Located, Refuses, Fits, Below, Before, Finds, Stops;
    MatchingLoops(s, fields, NamesOf(fields), pattern, part, path, v);
    InNameOrder(fields, FoundRefuses(s, fields, pattern, part, path, v), FoundFits(s, fields, pattern, part, path));
    forall name ensures StopsAt(fields, FoundRefuses(s, fields, pattern, part, path, v), FoundFits(s, fields, pattern, part, path), name) <==> FoundFault(s, fields, pattern, part, path, name, v) {
    }
    hide StopsAt, FoundFault;
  }

  ghost function PatternRefuses(s: Scope, fields: map<string, Json>, table: map<string, Json>, path: string, v: Verdict): string -> bool {
    pattern => pattern in table && OnePatternFault(s, fields, pattern, table[pattern], path, v)
  }

  ghost function PatternPasses(s: Scope, fields: map<string, Json>, table: map<string, Json>, path: string): string -> bool {
    pattern => pattern in table ==> forall w :: !OnePatternFault(s, fields, pattern, table[pattern], path, w)
  }

  lemma NoFaultIsValid(s: Scope, fields: map<string, Json>, pattern: string, part: Json, path: string)
    ensures !OnePatternFault(s, fields, pattern, part, path, Valid)
  {
    hide Refuses, Fits, Finds;
    assert forall name :: name in fields ==> !Refuses(s, fields[name], part, Below(path, name), Valid) by {
      NeverValid(s);
    }
  }

  lemma NeverValid(s: Scope)
    ensures forall value, part, path :: !Refuses(s, value, part, path, Valid)
  {
  }

  lemma {:induction false} PatternLoops(s: Scope, fields: map<string, Json>, names: seq<string>, patterns: Json, path: string, v: Verdict)
    requires Located(s.env, patterns, s.key) && patterns.Obj? && Within(names, patterns.fields) && v.Invalid?
    ensures EvalPatterns(s.env, s.active, fields, names, patterns, s.key, path) == v <==>
              Stops(names, PatternRefuses(s, fields, patterns.fields, path, v), PatternPasses(s, fields, patterns.fields, path))
  {
    hide EvalMatching, Located, OnePatternFault;
    if names != [] {
      var pattern := names[0];
      var part := patterns.fields[pattern];
      PatternLoops(s, fields, names[1..], patterns, path, v);
      ChildLocated(s.env, patterns, s.key);
      var e := if !s.env.isPattern(pattern) then Invalid(path, PatternInvalid)
               else EvalMatching(s.env, s.active, fields, NamesOf(fields), pattern, part, s.key, path);
      forall w ensures OnePatternFault(s, fields, pattern, part, path, w) <==> w.Invalid? && w == e {
        if w.Invalid? {
          OnePatternMeans(s, fields, pattern, part, path, w);
        } else {
          NoFaultIsValid(s, fields, pattern, part, path);
        }
      }
      StopsStep(names, PatternRefuses(s, fields, patterns.fields, path, v), PatternPasses(s, fields, patterns.fields, path));
      hide Stops;
    }
  }

  lemma PatternsMean(s: Scope, fields: map<string, Json>, patterns: Json, path: string, v: Verdict)
    requires Located(s.env, patterns, s.key) && patterns.Obj? && v.Invalid?
    ensures PatternsFault(s, fields, patterns.fields, path, v) <==>
              EvalPatterns(s.env, s.active, fields, NamesOf(patterns.fields), patterns, s.key, path) == v
  {
    hide EvalPatterns, Located, OnePatternFault, Before, Stops;
    PatternLoops(s, fields, NamesOf(patterns.fields), patterns, path, v);
    InNameOrder(patterns.fields, PatternRefuses(s, fields, patterns.fields, path, v), PatternPasses(s, fields, patterns.fields, path));
    forall name ensures StopsAt(patterns.fields, PatternRefuses(s, fields, patterns.fields, path, v), PatternPasses(s, fields, patterns.fields, path), name) <==> PatternFault(s, fields, patterns.fields, path, name, v) {
    }
    hide StopsAt, PatternFault;
  }

  ghost function OpenRefuses(s: Scope, fields: map<string, Json>, schema: Json, additional: Json, path: string, v: Verdict): string -> bool {
    name => name in fields && !Declared(s.env, schema, name) && OpenFault(s, fields[name], name, additional, path, v)
  }

  ghost function OpenPasses(s: Scope, fields: map<string, Json>, schema: Json, additional: Json, path: string): string -> bool {
    name => name in fields && !Declared(s.env, schema, name) ==> forall w :: !OpenFault(s, fields[name], name, additional, path, w)
  }

  lemma OpenMeans(s: Scope, member: Json, name: string, additional: Json, path: string, v: Verdict)
    requires Located(s.env, additional, s.key)
    ensures OpenFault(s, member, name, additional, path, v) <==>
              v.Invalid?
              && v == match additional
                      case Bool(allowed) => if allowed then Valid else Invalid(PropertyPath(path, name), PropertyNotAllowed(name))
                      case Obj(_) => Eval(s.env, s.active, member, additional, s.key, PropertyPath(path, name))
                      case _ => Invalid(path, AdditionalKeywordInvalid)
  {
    hide Eval, Located;
    Members(path, name);
    Given(s, member, additional, Below(path, name), v);
  }

  lemma {:induction false} AdditionalLoops(
      s: Scope, fields: map<string, Json>, names: seq<string>, schema: Json, path: string, v: Verdict)
    requires Located(s.env, schema, s.key) && schema.Obj? && "additionalProperties" in schema.fields
    requires Within(names, fields) && v.Invalid?
    ensures var additional := schema.fields["additionalProperties"];
            EvalAdditional(s.env, s.active, fields, names, schema, s.key, path) == v <==>
              Stops(names, OpenRefuses(s, fields, schema, additional, path, v), OpenPasses(s, fields, schema, additional, path))
  {
    hide Eval, Located, OpenFault, Covered, Declared, PropertyPath;
    if names != [] {
      var name, additional := names[0], schema.fields["additionalProperties"];
      AdditionalLoops(s, fields, names[1..], schema, path, v);
      ChildLocated(s.env, schema, s.key);
      DeclaredMeans(s.env, schema);
      var e := match additional
               case Bool(allowed) => if allowed then Valid else Invalid(PropertyPath(path, name), PropertyNotAllowed(name))
               case Obj(_) => Eval(s.env, s.active, fields[name], additional, s.key, PropertyPath(path, name))
               case _ => Invalid(path, AdditionalKeywordInvalid);
      forall w ensures OpenFault(s, fields[name], name, additional, path, w) <==> w.Invalid? && w == e {
        OpenMeans(s, fields[name], name, additional, path, w);
      }
      StopsStep(names, OpenRefuses(s, fields, schema, additional, path, v), OpenPasses(s, fields, schema, additional, path));
      hide Stops;
    }
  }

  lemma AdditionalMeans(s: Scope, fields: map<string, Json>, schema: Json, path: string, v: Verdict)
    requires Located(s.env, schema, s.key) && schema.Obj? && "additionalProperties" in schema.fields && v.Invalid?
    ensures AdditionalFault(s, fields, schema, schema.fields["additionalProperties"], path, v) <==>
              EvalAdditional(s.env, s.active, fields, NamesOf(fields), schema, s.key, path) == v
  {
    hide EvalAdditional, Located, OpenFault, Before, Declared, Stops;
    var additional := schema.fields["additionalProperties"];
    AdditionalLoops(s, fields, NamesOf(fields), schema, path, v);
    InNameOrder(fields, OpenRefuses(s, fields, schema, additional, path, v), OpenPasses(s, fields, schema, additional, path));
    forall name ensures StopsAt(fields, OpenRefuses(s, fields, schema, additional, path, v), OpenPasses(s, fields, schema, additional, path), name) <==> UndeclaredFault(s, fields, schema, additional, path, name, v) {
    }
    hide StopsAt, UndeclaredFault;
  }

  /* ---------- one group after the other ---------- */

  function Then(e: Verdict, f: Verdict): Verdict {
    if e.Invalid? then e else f
  }

  /** The groups together give this verdict and no other. */
  ghost predicate Together(s: Scope, value: Json, schema: Json, path: string, groups: seq<Group>, e: Verdict) {
    forall v :: First(s, value, schema, path, groups, v) <==> v == e
  }

  lemma Alone(s: Scope, value: Json, schema: Json, path: string, g: Group, e: Verdict)
    requires forall v :: Faults(s, value, schema, path, g, v) <==> v.Invalid? && v == e
    ensures Together(s, value, schema, path, [g], e)
  {
    hide Faults;
    forall v ensures First(s, value, schema, path, [g], v) <==> v == e {
      assert First(s, value, schema, path, [g][1..], v) <==> v == Valid;
      assert e.Invalid? ==> Faults(s, value, schema, path, g, e);
    }
  }

  lemma FaultIsInvalid(s: Scope, value: Json, schema: Json, path: string, g: Group, v: Verdict)
    requires Faults(s, value, schema, path, g, v)
    ensures v.Invalid?
  {
  }

  /** Where the first group refuses the value, the others do not matter. */
  lemma Refused(s: Scope, value: Json, schema: Json, path: string, groups: seq<Group>, others: seq<Group>, e: Verdict, w: Verdict)
    requires groups != [] && Together(s, value, schema, path, groups, e) && Faults(s, value, schema, path, groups[0], w)
    ensures e.Invalid? && Together(s, value, schema, path, groups + others, e)
  {
    FaultIsInvalid(s, value, schema, path, groups[0], w);
    hide Faults;
    var all := groups + others;
    assert all[0] == groups[0];
    assert First(s, value, schema, path, groups, w);
    forall v ensures First(s, value, schema, path, all, v) <==> v == e {
      assert First(s, value, schema, path, groups, v) <==> v == e;
    }
  }

  /** Where it does not, the others decide. */
  lemma Passed(s: Scope, value: Json, schema: Json, path: string, groups: seq<Group>, e: Verdict)
    requires groups != [] && forall w :: !Faults(s, value, schema, path, groups[0], w)
    ensures Together(s, value, schema, path, groups, e) <==> Together(s, value, schema, path, groups[1..], e)
  {
    hide Faults;
    forall v ensures First(s, value, schema, path, groups, v) <==> First(s, value, schema, path, groups[1..], v) {
    }
  }

  lemma {:induction false} FirstJoin(
      s: Scope, value: Json, schema: Json, path: string, groups: seq<Group>, others: seq<Group>, e: Verdict, f: Verdict)
    requires Together(s, value, schema, path, groups, e) && Together(s, value, schema, path, others, f)
    ensures Together(s, value, schema, path, groups + others, Then(e, f))
    decreases |groups|
  {
    hide Faults, Together;
    if groups == [] {
      assert e.Valid? by { Nothing(s, value, schema, path, e); }
      assert groups + others == others;
    } else {
      assert (groups + others)[0] == groups[0] && (groups + others)[1..] == groups[1..] + others;
      if w :| Faults(s, value, schema, path, groups[0], w) {
        Refused(s, value, schema, path, groups, others, e, w);
      } else {
        Passed(s, value, schema, path, groups, e);
        FirstJoin(s, value, schema, path, groups[1..], others, e, f);
        Passed(s, value, schema, path, groups + others, Then(e, f));
      }
    }
  }

  lemma Nothing(s: Scope, value: Json, schema: Json, path: string, e: Verdict)
    requires Together(s, value, schema, path, [], e)
    ensures e.Valid?
  {
    assert First(s, value, schema, path, [], Valid);
  }

  function AllVerdict(s: Scope, value: Json, schema: Json, path: string): Verdict
    requires Located(s.env, schema, s.key) && schema.Obj?
  {
    ChildLocated(s.env, schema, s.key);
    if HasList(schema, "allOf") then EvalAll(s.env, s.active, value, schema.fields["allOf"], 0, s.key, path) else Valid
  }

  function AnyVerdict(s: Scope, value: Json, schema: Json, path: string): Verdict
    requires Located(s.env, schema, s.key) && schema.Obj?
  {
    ChildLocated(s.env, schema, s.key);
    if HasList(schema, "anyOf") then AnyOfVerdict(EvalBranches(s.env, s.active, value, schema.fields["anyOf"], 0, s.key, path), path)
    else Valid
  }

  function OneVerdict(s: Scope, value: Json, schema: Json, path: string): Verdict
    requires Located(s.env, schema, s.key) && schema.Obj?
  {
    ChildLocated(s.env, schema, s.key);
    if HasList(schema, "oneOf") then OneOfVerdict(EvalBranches(s.env, s.active, value, schema.fields["oneOf"], 0, s.key, path), path)
    else Valid
  }

  lemma AllAlone(s: Scope, value: Json, schema: Json, path: string)
    requires Located(s.env, schema, s.key) && schema.Obj?
    ensures Together(s, value, schema, path, [AllOf], AllVerdict(s, value, schema, path))
  {
    hide Located, EvalAll, Together, AllOfFault;
    ChildLocated(s.env, schema, s.key);
    var e := AllVerdict(s, value, schema, path);
    forall v ensures Faults(s, value, schema, path, AllOf, v) <==> v.Invalid? && v == e {
      if v.Invalid? { AllOfMeans(s, value, schema, path, v); }
    }
    Alone(s, value, schema, path, AllOf, e);
  }

  lemma AnyAlone(s: Scope, value: Json, schema: Json, path: string)
    requires Located(s.env, schema, s.key) && schema.Obj?
    ensures Together(s, value, schema, path, [AnyOf], AnyVerdict(s, value, schema, path))
  {
    hide Located, EvalBranches, AnyOfVerdict, Together, AnyOfFault;
    ChildLocated(s.env, schema, s.key);
    var e := AnyVerdict(s, value, schema, path);
    forall v ensures Faults(s, value, schema, path, AnyOf, v) <==> v.Invalid? && v == e {
      if v.Invalid? { AnyOfMeans(s, value, schema, path, v); }
    }
    Alone(s, value, schema, path, AnyOf, e);
  }

  lemma OneAlone(s: Scope, value: Json, schema: Json, path: string)
    requires Located(s.env, schema, s.key) && schema.Obj?
    ensures Together(s, value, schema, path, [OneOf], OneVerdict(s, value, schema, path))
  {
    hide Located, EvalBranches, OneOfVerdict, Together, OneOfFault;
    ChildLocated(s.env, schema, s.key);
    var e := OneVerdict(s, value, schema, path);
    forall v ensures Faults(s, value, schema, path, OneOf, v) <==> v.Invalid? && v == e {
      if v.Invalid? { OneOfMeans(s, value, schema, path, v); }
    }
    Alone(s, value, schema, path, OneOf, e);
  }

  lemma ConditionAlone(s: Scope, value: Json, schema: Json, path: string)
    requires Located(s.env, schema, s.key) && schema.Obj?
    ensures Together(s, value, schema, path, [Condition], EvalCondition(s.env, s.active, value, schema, s.key, path))
  {
    hide Located, EvalCondition, Together, ConditionFault;
    var e := EvalCondition(s.env, s.active, value, schema, s.key, path);
    forall v ensures Faults(s, value, schema, path, Condition, v) <==> v.Invalid? && v == e {
      if v.Invalid? { ConditionMeans(s, value, schema, path, v); }
    }
    Alone(s, value, schema, path, Condition, e);
  }

  lemma ProhibitedAlone(s: Scope, value: Json, schema: Json, path: string)
    requires Located(s.env, schema, s.key) && schema.Obj?
    ensures Together(s, value, schema, path, [Prohibited], EvalNot(s.env, s.active, value, schema, s.key, path))
  {
    hide Located, EvalNot, Together, ProhibitedFault;
    var e := EvalNot(s.env, s.active, value, schema, s.key, path);
    forall v ensures Faults(s, value, schema, path, Prohibited, v) <==> v.Invalid? && v == e {
      if v.Invalid? { ProhibitedMeans(s, value, schema, path, v); }
    }
    Alone(s, value, schema, path, Prohibited, e);
  }

  lemma CompositionsTogether(s: Scope, value: Json, schema: Json, path: string)
    requires Located(s.env, schema, s.key) && schema.Obj?
    ensures Together(s, value, schema, path, COMPOSITIONS, EvalCompositions(s.env, s.active, value, schema, s.key, path))
  {
    hide Located, EvalCondition, EvalNot, EvalAll, EvalBranches, Together, AnyOfVerdict, OneOfVerdict;
    AllAlone(s, value, schema, path);
    AnyAlone(s, value, schema, path);
    OneAlone(s, value, schema, path);
    ConditionAlone(s, value, schema, path);
    ProhibitedAlone(s, value, schema, path);
    var all, any, one := AllVerdict(s, value, schema, path), AnyVerdict(s, value, schema, path), OneVerdict(s, value, schema, path);
    var lists := EvalLists(s.env, s.active, value, schema, s.key, path);
    assert lists == Then(Then(all, any), one);
    hide AllVerdict, AnyVerdict, OneVerdict, EvalLists;
    var condition := EvalCondition(s.env, s.active, value, schema, s.key, path);
    var prohibited := EvalNot(s.env, s.active, value, schema, s.key, path);
    FirstJoin(s, value, schema, path, [AllOf], [AnyOf], all, any);
    FirstJoin(s, value, schema, path, [AllOf] + [AnyOf], [OneOf], Then(all, any), one);
    FirstJoin(s, value, schema, path, [AllOf] + [AnyOf] + [OneOf], [Condition], lists, condition);
    FirstJoin(s, value, schema, path, [AllOf] + [AnyOf] + [OneOf] + [Condition], [Prohibited], Then(lists, condition), prohibited);
    assert COMPOSITIONS == [AllOf] + [AnyOf] + [OneOf] + [Condition] + [Prohibited];
  }

  /* ---------- the groups that look at no other schema ---------- */

  function LowVerdict(limit: Option<nat>, n: nat, path: string, reason: nat -> Reason): Verdict {
    if limit.Some? && n < limit.value then Invalid(path, reason(limit.value)) else Valid
  }

  function HighVerdict(limit: Option<nat>, n: nat, path: string, reason: nat -> Reason): Verdict {
    if limit.Some? && n > limit.value then Invalid(path, reason(limit.value)) else Valid
  }

  lemma LimitsMean(schema: Json, keyword: string, n: nat, low: nat)
    ensures TooLow(schema, keyword, n, low) <==> Natural(schema.Get(keyword)) == Some(low) && n < low
    ensures TooHigh(schema, keyword, n, low) <==> Natural(schema.Get(keyword)) == Some(low) && n > low
  {
  }

  lemma LocalAlone(s: Scope, value: Json, schema: Json, path: string, g: Group, e: Verdict)
    requires !g.Reference? && !OnCompositions(g) && !OnArrays(g) && !OnObjects(g)
    requires forall v: Verdict :: v.Invalid? ==> (LocalFault(s, value, schema, g, path, v) <==> v == e)
    ensures Together(s, value, schema, path, [g], e)
  {
    hide LocalFault, Together;
    forall v ensures Faults(s, value, schema, path, g, v) <==> v.Invalid? && v == e {
      hide ReferenceFault, CompositionFault, ArrayFault, ObjectFault;
    }
    Alone(s, value, schema, path, g, e);
  }

  lemma TypeAlone(s: Scope, value: Json, schema: Json, path: string)
    ensures Together(s, value, schema, path, [Typed], CheckType(schema, value, path))
  {
    var e := CheckType(schema, value, path);
    TypeMeans(schema, value, path);
    forall v: Verdict | v.Invalid? ensures LocalFault(s, value, schema, Typed, path, v) <==> v == e {
      hide AllowsType, TypeMatches;
    }
    hide LocalFault, CheckType, Together;
    LocalAlone(s, value, schema, path, Typed, e);
  }

  lemma ValuesAlone(s: Scope, value: Json, schema: Json, path: string)
    ensures Together(s, value, schema, path, [Constant], CheckConst(schema, value, path))
    ensures Together(s, value, schema, path, [Enumerated], CheckEnum(schema, value, path))
  {
    hide Together;
    forall v: Verdict | v.Invalid? ensures LocalFault(s, value, schema, Constant, path, v) <==> v == CheckConst(schema, value, path) {
    }
    LocalAlone(s, value, schema, path, Constant, CheckConst(schema, value, path));
    forall v: Verdict | v.Invalid? ensures LocalFault(s, value, schema, Enumerated, path, v) <==> v == CheckEnum(schema, value, path) {
    }
    LocalAlone(s, value, schema, path, Enumerated, CheckEnum(schema, value, path));
  }

  function MinLength(schema: Json, value: Json, path: string): Verdict {
    if value.Str? then LowVerdict(Natural(schema.Get("minLength")), |value.text|, path, (n: nat) => TooShort(n)) else Valid
  }

  function MaxLength(schema: Json, value: Json, path: string): Verdict {
    if value.Str? then HighVerdict(Natural(schema.Get("maxLength")), |value.text|, path, (n: nat) => TooLong(n)) else Valid
  }

  function PatternVerdict(env: Env, schema: Json, value: Json, path: string): Verdict {
    if !value.Str? then Valid else
    match Text(schema.Get("pattern"))
    case None => Valid
    case Some(pattern) =>
      if !env.isPattern(pattern) then Invalid(path, PatternInvalid)
      else if env.Matches(pattern, value.text) then Valid
      else Invalid(path, PatternMismatch(pattern))
  }

  lemma LengthsAlone(s: Scope, value: Json, schema: Json, path: string)
    ensures Together(s, value, schema, path, [LeastLength], MinLength(schema, value, path))
    ensures Together(s, value, schema, path, [MostLength], MaxLength(schema, value, path))
  {
    hide Together;
    if value.Str? {
      forall low: nat {
        LimitsMean(schema, "minLength", |value.text|, low);
      }
      forall high: nat {
        LimitsMean(schema, "maxLength", |value.text|, high);
      }
    }
    hide TooLow, TooHigh, Natural;
    forall v: Verdict | v.Invalid? ensures LocalFault(s, value, schema, LeastLength, path, v) <==> v == MinLength(schema, value, path) {
    }
    LocalAlone(s, value, schema, path, LeastLength, MinLength(schema, value, path));
    forall v: Verdict | v.Invalid? ensures LocalFault(s, value, schema, MostLength, path, v) <==> v == MaxLength(schema, value, path) {
    }
    LocalAlone(s, value, schema, path, MostLength, MaxLength(schema, value, path));
  }

  lemma PatternAlone(s: Scope, value: Json, schema: Json, path: string)
    ensures Together(s, value, schema, path, [Pattern], PatternVerdict(s.env, schema, value, path))
  {
    hide Together;
    var e := PatternVerdict(s.env, schema, value, path);
    forall v: Verdict | v.Invalid? ensures LocalFault(s, value, schema, Pattern, path, v) <==> v == e {
    }
    LocalAlone(s, value, schema, path, Pattern, e);
  }

  lemma LocalsTogether(s: Scope, value: Json, schema: Json, path: string)
    ensures Together(s, value, schema, path, LOCALS, CheckLocal(s.env, schema, value, path))
  {
    hide Together, Natural, CheckType, CheckConst, CheckEnum, Env.Matches;
    TypeAlone(s, value, schema, path);
    ValuesAlone(s, value, schema, path);
    LengthsAlone(s, value, schema, path);
    PatternAlone(s, value, schema, path);
    var t, c, e := CheckType(schema, value, path), CheckConst(schema, value, path), CheckEnum(schema, value, path);
    var low, high, p := MinLength(schema, value, path), MaxLength(schema, value, path), PatternVerdict(s.env, schema, value, path);
    assert CheckString(s.env, schema, value, path) == Then(Then(low, high), p);
    assert CheckLocal(s.env, schema, value, path) == Then(Then(Then(t, c), e), CheckString(s.env, schema, value, path));
    hide CheckString, CheckLocal, MinLength, MaxLength, PatternVerdict;
    FirstJoin(s, value, schema, path, [Typed], [Constant], t, c);
    FirstJoin(s, value, schema, path, [Typed] + [Constant], [Enumerated], Then(t, c), e);
    FirstJoin(s, value, schema, path, [LeastLength], [MostLength], low, high);
    FirstJoin(s, value, schema, path, [LeastLength] + [MostLength], [Pattern], Then(low, high), p);
    FirstJoin(s, value, schema, path, [Typed] + [Constant] + [Enumerated], [LeastLength] + [MostLength] + [Pattern],
      Then(Then(t, c), e), Then(Then(low, high), p));
    assert LOCALS == [Typed] + [Constant] + [Enumerated] + ([LeastLength] + [MostLength] + [Pattern]);
  }

  function AtLeastVerdict(schema: Json, value: Json, path: string): Verdict {
    match schema.Get("minimum")
    case Some(Number(low)) => if value.Number? && value.number < low then Invalid(path, BelowMinimum) else Valid
    case _ => Valid
  }

  function AtMostVerdict(schema: Json, value: Json, path: string): Verdict {
    match schema.Get("maximum")
    case Some(Number(high)) => if value.Number? && value.number > high then Invalid(path, AboveMaximum) else Valid
    case _ => Valid
  }

  lemma NumbersTogether(s: Scope, value: Json, schema: Json, path: string)
    ensures Together(s, value, schema, path, OF_NUMBERS, CheckNumber(schema, value, path))
  {
    hide Together;
    var low, high := AtLeastVerdict(schema, value, path), AtMostVerdict(schema, value, path);
    forall v: Verdict | v.Invalid? ensures LocalFault(s, value, schema, Least, path, v) <==> v == low {
    }
    LocalAlone(s, value, schema, path, Least, low);
    forall v: Verdict | v.Invalid? ensures LocalFault(s, value, schema, Most, path, v) <==> v == high {
    }
    LocalAlone(s, value, schema, path, Most, high);
    assert CheckNumber(schema, value, path) == Then(low, high);
    hide LocalFault, CheckNumber, AtLeastVerdict, AtMostVerdict;
    FirstJoin(s, value, schema, path, [Least], [Most], low, high);
    assert OF_NUMBERS == [Least] + [Most];
  }

  /* ---------- arrays and objects as groups ---------- */

  lemma ArrayAlone(s: Scope, value: Json, schema: Json, path: string, g: Group, e: Verdict)
    requires OnArrays(g)
    requires if value.Arr? then forall v: Verdict :: v.Invalid? ==> (ArrayFault(s, value.items, schema, g, path, v) <==> v == e) else e.Valid?
    ensures Together(s, value, schema, path, [g], e)
  {
    hide ArrayFault, Together;
    forall v ensures Faults(s, value, schema, path, g, v) <==> v.Invalid? && v == e {
      hide ReferenceFault, CompositionFault, LocalFault, ObjectFault;
    }
    Alone(s, value, schema, path, g, e);
  }

  lemma ObjectAlone(s: Scope, value: Json, schema: Json, path: string, g: Group, e: Verdict)
    requires OnObjects(g)
    requires if value.Obj? then forall v: Verdict :: v.Invalid? ==> (ObjectFault(s, value.fields, schema, g, path, v) <==> v == e) else e.Valid?
    ensures Together(s, value, schema, path, [g], e)
  {
    hide ObjectFault, Together;
    forall v ensures Faults(s, value, schema, path, g, v) <==> v.Invalid? && v == e {
      hide ReferenceFault, CompositionFault, LocalFault, ArrayFault;
    }
    Alone(s, value, schema, path, g, e);
  }

  function FewestVerdict(schema: Json, value: Json, path: string): Verdict {
    if value.Arr? then LowVerdict(Natural(schema.Get("minItems")), |value.items|, path, (n: nat) => TooFewItems(n)) else Valid
  }

  function MostVerdict(schema: Json, value: Json, path: string): Verdict {
    if value.Arr? then HighVerdict(Natural(schema.Get("maxItems")), |value.items|, path, (n: nat) => TooManyItems(n)) else Valid
  }

  function UniqueVerdict(schema: Json, value: Json, path: string): Verdict {
    if value.Arr? && schema.Get("uniqueItems") == Some(Bool(true)) && HasRepeats(value.items) then Invalid(path, RepeatedItems) else Valid
  }

  lemma SizesAlone(s: Scope, value: Json, schema: Json, path: string)
    ensures Together(s, value, schema, path, [FewestItems], FewestVerdict(schema, value, path))
    ensures Together(s, value, schema, path, [MostItems], MostVerdict(schema, value, path))
  {
    hide Together;
    if value.Arr? {
      forall low: nat {
        LimitsMean(schema, "minItems", |value.items|, low);
      }
      forall high: nat {
        LimitsMean(schema, "maxItems", |value.items|, high);
      }
      hide TooLow, TooHigh, Natural;
      forall v: Verdict | v.Invalid?
        ensures ArrayFault(s, value.items, schema, FewestItems, path, v) <==> v == FewestVerdict(schema, value, path)
      {
      }
      forall v: Verdict | v.Invalid?
        ensures ArrayFault(s, value.items, schema, MostItems, path, v) <==> v == MostVerdict(schema, value, path)
      {
      }
    }
    ArrayAlone(s, value, schema, path, FewestItems, FewestVerdict(schema, value, path));
    ArrayAlone(s, value, schema, path, MostItems, MostVerdict(schema, value, path));
  }

  lemma UniqueAlone(s: Scope, value: Json, schema: Json, path: string)
    ensures Together(s, value, schema, path, [Uniqueness], UniqueVerdict(schema, value, path))
  {
    hide Together;
    if value.Arr? {
      forall v: Verdict | v.Invalid?
        ensures ArrayFault(s, value.items, schema, Uniqueness, path, v) <==> v == UniqueVerdict(schema, value, path)
      {
      }
    }
    ArrayAlone(s, value, schema, path, Uniqueness, UniqueVerdict(schema, value, path));
  }

  function ItemsVerdict(s: Scope, value: Json, schema: Json, path: string): Verdict
    requires Located(s.env, schema, s.key) && schema.Obj?
  {
    if value.Arr? then EvalItemsGroup(s, value.items, schema, path) else Valid
  }

  function ContainedVerdict(s: Scope, value: Json, schema: Json, path: string): Verdict
    requires Located(s.env, schema, s.key) && schema.Obj?
  {
    if value.Arr? then EvalContained(s, value.items, schema, path) else Valid
  }

  lemma ElementsAlone(s: Scope, value: Json, schema: Json, path: string)
    requires Located(s.env, schema, s.key) && schema.Obj?
    ensures Together(s, value, schema, path, [Items], ItemsVerdict(s, value, schema, path))
    ensures Together(s, value, schema, path, [Contained], ContainedVerdict(s, value, schema, path))
  {
    hide Together, Located, EvalItemsGroup, EvalContained, ItemsFault;
    if value.Arr? {
      forall v: Verdict | v.Invalid?
        ensures ArrayFault(s, value.items, schema, Items, path, v) <==> v == ItemsVerdict(s, value, schema, path)
      {
        ItemsMean(s, value.items, schema, path, v);
      }
      forall v: Verdict | v.Invalid?
        ensures ArrayFault(s, value.items, schema, Contained, path, v) <==> v == ContainedVerdict(s, value, schema, path)
      {
        ContainedMeans(s, value.items, schema, path, v);
        hide ArrayFault;
      }
    }
    ArrayAlone(s, value, schema, path, Items, ItemsVerdict(s, value, schema, path));
    ArrayAlone(s, value, schema, path, Contained, ContainedVerdict(s, value, schema, path));
  }

  lemma SizeIs(schema: Json, value: Json, path: string)
    requires value.Arr?
    ensures CheckSize(schema, value.items, path)
         == Then(Then(FewestVerdict(schema, value, path), MostVerdict(schema, value, path)), UniqueVerdict(schema, value, path))
  {
    hide HasRepeats, Natural;
  }

  lemma ArrayIs(s: Scope, value: Json, schema: Json, path: string)
    requires Located(s.env, schema, s.key) && schema.Obj? && value.Arr?
    ensures EvalArray(s.env, s.active, value, schema, s.key, path)
         == Then(Then(CheckSize(schema, value.items, path), ItemsVerdict(s, value, schema, path)), ContainedVerdict(s, value, schema, path))
  {
    hide CheckSize, Located, EvalItems, EvalTuple, CountContained;
  }

  lemma ArraysTogether(s: Scope, value: Json, schema: Json, path: string)
    requires Located(s.env, schema, s.key) && schema.Obj?
    ensures Together(s, value, schema, path, OF_ARRAYS, EvalArray(s.env, s.active, value, schema, s.key, path))
  {
    SizesAlone(s, value, schema, path);
    UniqueAlone(s, value, schema, path);
    ElementsAlone(s, value, schema, path);
    if value.Arr? {
      SizeIs(schema, value, path);
      ArrayIs(s, value, schema, path);
    }
    var low, high := FewestVerdict(schema, value, path), MostVerdict(schema, value, path);
    var u, items, contained := UniqueVerdict(schema, value, path), ItemsVerdict(s, value, schema, path), ContainedVerdict(s, value, schema, path);
    assert EvalArray(s.env, s.active, value, schema, s.key, path) == Then(Then(Then(Then(low, high), u), items), contained);
    hide Together, Located, CheckSize, EvalArray, FewestVerdict, MostVerdict, UniqueVerdict, ItemsVerdict, ContainedVerdict;
    FirstJoin(s, value, schema, path, [FewestItems], [MostItems], low, high);
    FirstJoin(s, value, schema, path, [FewestItems] + [MostItems], [Uniqueness], Then(low, high), u);
    FirstJoin(s, value, schema, path, [FewestItems] + [MostItems] + [Uniqueness], [Items], Then(Then(low, high), u), items);
    FirstJoin(s, value, schema, path, [FewestItems] + [MostItems] + [Uniqueness] + [Items], [Contained],
      Then(Then(Then(low, high), u), items), contained);
    assert OF_ARRAYS == [FewestItems] + [MostItems] + [Uniqueness] + [Items] + [Contained];
  }

  /* objects */

  function RequiredVerdict(schema: Json, value: Json, path: string): Verdict {
    if value.Obj? then CheckRequired(value.fields, RequiredNames(schema), path) else Valid
  }

  function FewPropertiesVerdict(schema: Json, value: Json, path: string): Verdict {
    if value.Obj? then LowVerdict(Natural(schema.Get("minProperties")), |value.fields|, path, (n: nat) => TooFewProperties(n)) else Valid
  }

  lemma MembersAlone(s: Scope, value: Json, schema: Json, path: string)
    ensures Together(s, value, schema, path, [Required], RequiredVerdict(schema, value, path))
    ensures Together(s, value, schema, path, [FewestProperties], FewPropertiesVerdict(schema, value, path))
  {
    hide Together, RequiredFault, CheckRequired;
    if value.Obj? {
      forall v: Verdict | v.Invalid?
        ensures ObjectFault(s, value.fields, schema, Required, path, v) <==> v == RequiredVerdict(schema, value, path)
      {
        RequiredMeans(schema, value.fields, path, v);
        hide RequiredNames;
      }
      forall low: nat {
        LimitsMean(schema, "minProperties", |value.fields|, low);
      }
      hide TooLow, TooHigh, Natural;
      forall v: Verdict | v.Invalid?
        ensures ObjectFault(s, value.fields, schema, FewestProperties, path, v) <==> v == FewPropertiesVerdict(schema, value, path)
      {
      }
    }
    ObjectAlone(s, value, schema, path, Required, RequiredVerdict(schema, value, path));
    ObjectAlone(s, value, schema, path, FewestProperties, FewPropertiesVerdict(schema, value, path));
  }

  function NamesVerdict(s: Scope, value: Json, schema: Json, path: string): Verdict
    requires Located(s.env, schema, s.key) && schema.Obj?
  {
    ChildLocated(s.env, schema, s.key);
    if value.Obj? && "propertyNames" in schema.fields then
      EvalNames(s.env, s.active, NamesOf(value.fields), schema.fields["propertyNames"], s.key, path)
    else Valid
  }

  lemma NamesAlone(s: Scope, value: Json, schema: Json, path: string)
    requires Located(s.env, schema, s.key) && schema.Obj?
    ensures Together(s, value, schema, path, [PropertyNames], NamesVerdict(s, value, schema, path))
  {
    hide Together, Located, EvalNames, NamesFault, NamesOf;
    ChildLocated(s.env, schema, s.key);
    var e := NamesVerdict(s, value, schema, path);
    if value.Obj? {
      forall v: Verdict | v.Invalid? ensures ObjectFault(s, value.fields, schema, PropertyNames, path, v) <==> v == e {
        if "propertyNames" in schema.fields {
          NamesMean(s, value.fields, schema.fields["propertyNames"], path, v);
          assert schema.Get("propertyNames") == Some(schema.fields["propertyNames"]);
        }
      }
    }
    ObjectAlone(s, value, schema, path, PropertyNames, e);
  }

  function PropertiesVerdict(s: Scope, value: Json, schema: Json, path: string): Verdict
    requires Located(s.env, schema, s.key) && schema.Obj?
  {
    ChildLocated(s.env, schema, s.key);
    if value.Obj? && HasTable(schema, "properties") then
      var properties := schema.fields["properties"];
      EvalProperties(s.env, s.active, value.fields, NamesOf(properties.fields), properties, s.key, path)
    else Valid
  }

  lemma PropertiesAlone(s: Scope, value: Json, schema: Json, path: string)
    requires Located(s.env, schema, s.key) && schema.Obj?
    ensures Together(s, value, schema, path, [Properties], PropertiesVerdict(s, value, schema, path))
  {
    hide Together, Located, EvalProperties, PropertiesFault, NamesOf;
    ChildLocated(s.env, schema, s.key);
    var e := PropertiesVerdict(s, value, schema, path);
    if value.Obj? {
      forall v: Verdict | v.Invalid? ensures ObjectFault(s, value.fields, schema, Properties, path, v) <==> v == e {
        if HasTable(schema, "properties") {
          PropertiesMean(s, value.fields, schema.fields["properties"], path, v);
          assert schema.Get("properties") == Some(Obj(schema.fields["properties"].fields));
        }
      }
    }
    ObjectAlone(s, value, schema, path, Properties, e);
  }

  function PatternsVerdict(s: Scope, value: Json, schema: Json, path: string): Verdict
    requires Located(s.env, schema, s.key) && schema.Obj?
  {
    ChildLocated(s.env, schema, s.key);
    if value.Obj? && HasTable(schema, "patternProperties") then
      var patterns := schema.fields["patternProperties"];
      EvalPatterns(s.env, s.active, value.fields, NamesOf(patterns.fields), patterns, s.key, path)
    else Valid
  }

  lemma PatternsAlone(s: Scope, value: Json, schema: Json, path: string)
    requires Located(s.env, schema, s.key) && schema.Obj?
    ensures Together(s, value, schema, path, [PatternProperties], PatternsVerdict(s, value, schema, path))
  {
    hide Together, Located, EvalPatterns, PatternsFault, NamesOf;
    ChildLocated(s.env, schema, s.key);
    var e := PatternsVerdict(s, value, schema, path);
    if value.Obj? {
      forall v: Verdict | v.Invalid? ensures ObjectFault(s, value.fields, schema, PatternProperties, path, v) <==> v == e {
        if HasTable(schema, "patternProperties") {
          PatternsMean(s, value.fields, schema.fields["patternProperties"], path, v);
          assert schema.Get("patternProperties") == Some(Obj(schema.fields["patternProperties"].fields));
        }
      }
    }
    ObjectAlone(s, value, schema, path, PatternProperties, e);
  }

  function AdditionalVerdict(s: Scope, value: Json, schema: Json, path: string): Verdict
    requires Located(s.env, schema, s.key) && schema.Obj?
  {
    if value.Obj? && "additionalProperties" in schema.fields then
      EvalAdditional(s.env, s.active, value.fields, NamesOf(value.fields), schema, s.key, path)
    else Valid
  }

  lemma AdditionalAlone(s: Scope, value: Json, schema: Json, path: string)
    requires Located(s.env, schema, s.key) && schema.Obj?
    ensures Together(s, value, schema, path, [AdditionalProperties], AdditionalVerdict(s, value, schema, path))
  {
    hide Together, Located, EvalAdditional, AdditionalFault, NamesOf;
    var e := AdditionalVerdict(s, value, schema, path);
    if value.Obj? {
      forall v: Verdict | v.Invalid? ensures ObjectFault(s, value.fields, schema, AdditionalProperties, path, v) <==> v == e {
        if "additionalProperties" in schema.fields {
          AdditionalMeans(s, value.fields, schema, path, v);
          assert schema.Get("additionalProperties") == Some(schema.fields["additionalProperties"]);
        }
      }
    }
    ObjectAlone(s, value, schema, path, AdditionalProperties, e);
  }

  lemma ObjectIs(s: Scope, value: Json, schema: Json, path: string)
    requires Located(s.env, schema, s.key) && schema.Obj? && value.Obj?
    ensures EvalObject(s.env, s.active, value, schema, s.key, path)
         == Then(Then(CheckMembers(schema, value.fields, path), EvalDeclared(s.env, s.active, value.fields, schema, s.key, path)),
                 EvalOpen(s.env, s.active, value.fields, schema, s.key, path))
    ensures CheckMembers(schema, value.fields, path) == Then(RequiredVerdict(schema, value, path), FewPropertiesVerdict(schema, value, path))
  {
    hide Located, EvalDeclared, EvalOpen, CheckRequired, Natural;
  }

  lemma PartsAre(s: Scope, value: Json, schema: Json, path: string)
    requires Located(s.env, schema, s.key) && schema.Obj? && value.Obj?
    ensures EvalDeclared(s.env, s.active, value.fields, schema, s.key, path)
         == Then(NamesVerdict(s, value, schema, path), PropertiesVerdict(s, value, schema, path))
    ensures EvalOpen(s.env, s.active, value.fields, schema, s.key, path)
         == Then(PatternsVerdict(s, value, schema, path), AdditionalVerdict(s, value, schema, path))
  {
    hide Located, EvalNames, EvalProperties, EvalPatterns, EvalAdditional, NamesOf;
  }

  lemma ObjectsTogether(s: Scope, value: Json, schema: Json, path: string)
    requires Located(s.env, schema, s.key) && schema.Obj?
    ensures Together(s, value, schema, path, OF_OBJECTS, EvalObject(s.env, s.active, value, schema, s.key, path))
  {
    MembersAlone(s, value, schema, path);
    NamesAlone(s, value, schema, path);
    PropertiesAlone(s, value, schema, path);
    PatternsAlone(s, value, schema, path);
    AdditionalAlone(s, value, schema, path);
    if value.Obj? {
      ObjectIs(s, value, schema, path);
      PartsAre(s, value, schema, path);
    }
    var required, few := RequiredVerdict(schema, value, path), FewPropertiesVerdict(schema, value, path);
    var names, properties := NamesVerdict(s, value, schema, path), PropertiesVerdict(s, value, schema, path);
    var patterns, additional := PatternsVerdict(s, value, schema, path), AdditionalVerdict(s, value, schema, path);
    assert EvalObject(s.env, s.active, value, schema, s.key, path)
        == Then(Then(Then(required, few), Then(names, properties)), Then(patterns, additional));
    hide *;
    FirstJoin(s, value, schema, path, [Required], [FewestProperties], required, few);
    FirstJoin(s, value, schema, path, [PropertyNames], [Properties], names, properties);
    FirstJoin(s, value, schema, path, [PatternProperties], [AdditionalProperties], patterns, additional);
    JoinThree(s, value, schema, path, [Required] + [FewestProperties], [PropertyNames] + [Properties],
      [PatternProperties] + [AdditionalProperties], Then(required, few), Then(names, properties), Then(patterns, additional));
    ObjectGroups();
  }

  lemma ObjectGroups()
    ensures OF_OBJECTS == [Required] + [FewestProperties] + ([PropertyNames] + [Properties]) + ([PatternProperties] + [AdditionalProperties])
  {
  }

  lemma JoinThree(
      s: Scope, value: Json, schema: Json, path: string, one: seq<Group>, two: seq<Group>, three: seq<Group>, e: Verdict, f: Verdict, g: Verdict)
    requires Together(s, value, schema, path, one, e) && Together(s, value, schema, path, two, f) && Together(s, value, schema, path, three, g)
    ensures Together(s, value, schema, path, one + two + three, Then(Then(e, f), g))
  {
    hide *;
    FirstJoin(s, value, schema, path, one, two, e, f);
    FirstJoin(s, value, schema, path, one + two, three, Then(e, f), g);
  }

  /* ---------- the whole evaluation ---------- */

  lemma ReferenceAlone(s: Scope, value: Json, schema: Json, path: string)
    requires Located(s.env, schema, s.key)
    ensures Together(s, value, schema, path, [Reference], EvalReference(s.env, s.active, value, schema, s.key, path))
  {
    hide Together, Located, EvalReference, ReferenceFault;
    var e := EvalReference(s.env, s.active, value, schema, s.key, path);
    forall v ensures Faults(s, value, schema, path, Reference, v) <==> v.Invalid? && v == e {
      if v.Invalid? { ReferenceMeans(s, value, schema, path, v); }
    }
    Alone(s, value, schema, path, Reference, e);
  }

  /** All groups, in the order in which they are checked. */
  const GROUPS: seq<Group> := [Reference] + COMPOSITIONS + LOCALS + OF_ARRAYS + OF_OBJECTS + OF_NUMBERS

  lemma GroupsTogether(s: Scope, value: Json, schema: Json, path: string)
    requires Located(s.env, schema, s.key) && schema.Obj? && CheckKeywords(schema, path).Valid?
    ensures Together(s, value, schema, path, GROUPS, Eval(s.env, s.active, value, schema, s.key, path))
  {
    hide Together, Located, CheckKeywords, EvalReference, EvalCompositions, CheckLocal, EvalArray, EvalObject, CheckNumber;
    ReferenceAlone(s, value, schema, path);
    CompositionsTogether(s, value, schema, path);
    LocalsTogether(s, value, schema, path);
    ArraysTogether(s, value, schema, path);
    ObjectsTogether(s, value, schema, path);
    NumbersTogether(s, value, schema, path);
    var r, c := EvalReference(s.env, s.active, value, schema, s.key, path), EvalCompositions(s.env, s.active, value, schema, s.key, path);
    var l, a := CheckLocal(s.env, schema, value, path), EvalArray(s.env, s.active, value, schema, s.key, path);
    var o, n := EvalObject(s.env, s.active, value, schema, s.key, path), CheckNumber(schema, value, path);
    assert Eval(s.env, s.active, value, schema, s.key, path) == Then(Then(Then(Then(Then(r, c), l), a), o), n);
    hide Eval;
    FirstJoin(s, value, schema, path, [Reference], COMPOSITIONS, r, c);
    FirstJoin(s, value, schema, path, [Reference] + COMPOSITIONS, LOCALS, Then(r, c), l);
    FirstJoin(s, value, schema, path, [Reference] + COMPOSITIONS + LOCALS, OF_ARRAYS, Then(Then(r, c), l), a);
    FirstJoin(s, value, schema, path, [Reference] + COMPOSITIONS + LOCALS + OF_ARRAYS, OF_OBJECTS, Then(Then(Then(r, c), l), a), o);
    FirstJoin(s, value, schema, path, [Reference] + COMPOSITIONS + LOCALS + OF_ARRAYS + OF_OBJECTS, OF_NUMBERS,
      Then(Then(Then(Then(r, c), l), a), o), n);
  }

  /** The first keyword, by name, that is not supported. */
  ghost predicate Unsupported(schema: Json, keyword: string) {
    schema.Obj? && keyword in schema.fields && keyword !in SUPPORTED
    && forall other :: other in schema.fields && Before(other, keyword) ==> other in SUPPORTED
  }

  ghost function IsUnsupported(keyword: string): string -> bool {
    name => name == keyword && name !in SUPPORTED
  }

  ghost function IsSupported(): string -> bool {
    name => name in SUPPORTED
  }

  lemma {:induction false} UnsupportedLoops(names: seq<string>, keyword: string)
    ensures UnsupportedKeywords(names) == Some(keyword) <==> Stops(names, IsUnsupported(keyword), IsSupported())
  {
    if names != [] {
      UnsupportedLoops(names[1..], keyword);
      StopsStep(names, IsUnsupported(keyword), IsSupported());
      hide Stops;
    }
  }

  lemma UnsupportedMeans(schema: Json, keyword: string)
    requires schema.Obj?
    ensures UnsupportedKeywords(NamesOf(schema.fields)) == Some(keyword) <==> Unsupported(schema, keyword)
  {
    hide Before, Stops, UnsupportedKeywords, NamesOf;
    UnsupportedLoops(NamesOf(schema.fields), keyword);
    InNameOrder(schema.fields, IsUnsupported(keyword), IsSupported());
    forall name
      ensures StopsAt(schema.fields, IsUnsupported(keyword), IsSupported(), name) <==> name == keyword && Unsupported(schema, keyword)
    {
    }
    hide StopsAt, Unsupported;
    if Unsupported(schema, keyword) {
      assert StopsAt(schema.fields, IsUnsupported(keyword), IsSupported(), keyword);
    }
  }

  ghost predicate Diagnosed(s: Scope, value: Json, schema: Json, path: string, v: Verdict) {
    if !schema.Obj? then v == Invalid(path, SchemaNotAnObject)
    else if exists keyword :: Unsupported(schema, keyword) then
      exists keyword :: Unsupported(schema, keyword) && v == Invalid(path, UnsupportedKeyword(keyword))
    else First(s, value, schema, path, GROUPS, v)
  }

  /**
   * The verdict, exactly, on every closure: a schema that is no object or has an unsupported keyword is refused
   * as such; otherwise the first group of keywords that refuses the value decides, with the fault and the path
   * of the first part that it refuses, and without one the value is valid.
   */
  lemma VerdictExactly(s: Scope, value: Json, schema: Json, path: string, v: Verdict)
    requires Located(s.env, schema, s.key)
    ensures Eval(s.env, s.active, value, schema, s.key, path) == v <==> Diagnosed(s, value, schema, path, v)
  {
    hide Located, First, GROUPS, CheckKeywords, Unsupported;
    if schema.Obj? {
      KeywordsDecide(schema, path);
      if CheckKeywords(schema, path).Valid? {
        GroupsTogether(s, value, schema, path);
        hide Eval;
      } else {
        KeywordsRefuse(s, value, schema, path);
        hide Eval;
      }
    }
  }

  lemma KeywordsRefuse(s: Scope, value: Json, schema: Json, path: string)
    requires Located(s.env, schema, s.key) && schema.Obj? && CheckKeywords(schema, path).Invalid?
    ensures Eval(s.env, s.active, value, schema, s.key, path) == CheckKeywords(schema, path)
  {
    hide Located, CheckKeywords, EvalReference, EvalCompositions, CheckLocal, EvalArray, EvalObject, CheckNumber;
  }

  lemma KeywordsDecide(schema: Json, path: string)
    requires schema.Obj?
    ensures CheckKeywords(schema, path).Valid? <==> !exists keyword :: Unsupported(schema, keyword)
    ensures forall keyword :: Unsupported(schema, keyword) <==> CheckKeywords(schema, path) == Invalid(path, UnsupportedKeyword(keyword))
  {
    forall keyword ensures UnsupportedKeywords(NamesOf(schema.fields)) == Some(keyword) <==> Unsupported(schema, keyword) {
      UnsupportedMeans(schema, keyword);
    }
    hide Unsupported, UnsupportedKeywords, NamesOf;
  }
}
