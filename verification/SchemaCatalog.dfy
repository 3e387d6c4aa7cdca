/**
 * The schema catalog of the candidate-source renderer: order-preserving schema resources, the
 * resolution of pointers and references, the choice of a variant for a value, and the member layout.
 *
 * The recursion of `Choose` and `CollectLayout` follows the schemas, which may refer to each other
 * without end; `fuel` bounds it, and running out is the distinguished error `Diverges`.
 */
module SchemaCatalog {
  import opened Prelude
  import opened Strings
  import opened CanonicalText

  /** A schema document with its member order; numbers carry no content. */
  datatype OrderedValue =
    | ONull
    | OBool(flag: bool)
    | ONumber
    | OString(text: string)
    | OArray(items: seq<OrderedValue>)
    | OObject(entries: seq<(string, OrderedValue)>)
  {
    function Get(key: string): Option<OrderedValue> {
      if OObject? then FirstNamed(entries, key) else None
    }

    function GetString(key: string): Option<string> {
      match Get(key)
      case Some(OString(s)) => Some(s)
      case _ => None
    }
  }

  function FirstNamed(entries: seq<(string, OrderedValue)>, key: string): Option<OrderedValue> {
    if entries == [] then None
    else if entries[0].0 == key then Some(entries[0].1)
    else FirstNamed(entries[1..], key)
  }

  type Catalog = map<string, OrderedValue>

  /** A schema together with the resource that references inside it are relative to. */
  datatype Schema = Schema(resource: string, value: OrderedValue)

  datatype Selector = Selector(resource: string, pointer: string)

  datatype RenderError =
    | UnknownResource | BadPointer | DepthExceeded | AmbiguousVariant | NoGoverningSchema
    | ClosedSchema | NoItemsSchema | BadAdditional | UnsafeNumber | Diverges

  type Rendered<T> = Result<T, RenderError>

  /* ---------- pointers and references ---------- */

  predicate ValidEscapes(raw: string)
    decreases |raw|
  {
    raw == "" ||
    if raw[0] == '~' then |raw| >= 2 && (raw[1] == '0' || raw[1] == '1') && ValidEscapes(raw[2..])
    else ValidEscapes(raw[1..])
  }

  /** An array index as the standard library reads one: an optional plus sign, then digits. */
  function ParseIndex(s: string): Option<nat> {
    var digits := if StartsWith(s, "+") then s[1..] else s;
    if digits != "" && AllDigits(digits) then Some(DigitsValue(digits)) else None
  }

  function Descend(value: OrderedValue, segment: string): Rendered<OrderedValue> {
    match value
    case OObject(entries) =>
      (match FirstNamed(entries, segment)
       case Some(child) => Ok(child)
       case None => Err(BadPointer))
    case OArray(items) =>
      (match ParseIndex(segment)
       case Some(i) => if i < |items| then Ok(items[i]) else Err(BadPointer)
       case None => Err(BadPointer))
    case _ => Err(BadPointer)
  }

  function Walk(value: OrderedValue, segments: seq<string>): Rendered<OrderedValue>
    decreases |segments|
  {
    if segments == [] then Ok(value)
    else if !ValidEscapes(segments[0]) then Err(BadPointer)
    else
      var child :- Descend(value, SegmentName(segments[0]));
      Walk(child, segments[1..])
  }

  function Pointer(root: Schema, pointer: string): Rendered<Schema> {
    if pointer == "" then Ok(root)
    else if pointer[0] != '/' then Err(BadPointer)
    else
      var value :- Walk(root.value, Split(pointer[1..], '/'));
      Ok(Schema(root.resource, value))
  }

  /** The pointer walk as the program performs it: one cursor moved segment by segment. */
  method FollowPointer(root: Schema, pointer: string) returns (r: Rendered<Schema>)
    ensures r == Pointer(root, pointer)
  {
    if pointer == "" {
      return Ok(root);
    }
    if pointer[0] != '/' {
      return Err(BadPointer);
    }
    var segments := Split(pointer[1..], '/');
    var value := root.value;
    for i := 0 to |segments|
      invariant Walk(root.value, segments) == Walk(value, segments[i..])
    {
      if !ValidEscapes(segments[i]) {
        return Err(BadPointer);
      }
      assert segments[i..][1..] == segments[i + 1..];
      value :- Descend(value, SegmentName(segments[i]));
    }
    return Ok(Schema(root.resource, value));
  }

  function Root(catalog: Catalog, resource: string): Rendered<Schema> {
    if resource in catalog then Ok(Schema(resource, catalog[resource])) else Err(UnknownResource)
  }

  function Select(catalog: Catalog, selector: Selector): Rendered<Schema> {
    var root :- Root(catalog, selector.resource);
    Pointer(root, selector.pointer)
  }

  function Reference(catalog: Catalog, current: string, reference: string): Rendered<Schema> {
    var (resource, pointer) := match SplitOnce(reference, '#')
      case Some(parts) => parts
      case None => (reference, "");
    var key :=
      if resource == "" then current
      else if EndsWith(resource, ".json") then "authoring/1.7/schema/" + TrimEnd(resource, ".json")
      else resource;
    var root :- Root(catalog, key);
    Pointer(root, pointer)
  }

  const MAX_REFERENCE_DEPTH: nat := 32

  function Dereference(catalog: Catalog, schema: Schema, hops: nat := MAX_REFERENCE_DEPTH): Rendered<Schema>
    decreases hops
  {
    if hops == 0 then Err(DepthExceeded) else
    match schema.value.GetString("$ref")
    case None => Ok(schema)
    case Some(reference) =>
      var next :- Reference(catalog, schema.resource, reference);
      Dereference(catalog, next, hops - 1)
  }

  /* ---------- the variant that governs a value ---------- */

  predicate TypeMatches(kind: string, value: Json) {
    if kind == "null" then value.Null?
    else if kind == "boolean" then value.Bool?
    else if kind == "string" then value.Str?
    else if kind == "integer" || kind == "number" then value.Number?
    else if kind == "object" then value.Obj?
    else if kind == "array" then value.Arr?
    else false
  }

  function Variants(schema: Schema): Option<seq<OrderedValue>> {
    match schema.value.Get("oneOf")
    case Some(OArray(items)) => Some(items)
    case _ =>
      match schema.value.Get("anyOf")
      case Some(OArray(items)) => Some(items)
      case _ => None
  }

  function Choose(catalog: Catalog, schema: Schema, value: Json, fuel: nat): Rendered<Schema>
    decreases fuel, 0
  {
    if fuel == 0 then Err(Diverges) else
    var schema :- Dereference(catalog, schema);
    if value.Null? then Ok(schema) else
    match Variants(schema)
    case None => Ok(schema)
    case Some(variants) =>
      var matches :- Accepting(catalog, schema.resource, variants, value, fuel - 1);
      if |matches| != 1 then Err(AmbiguousVariant) else Choose(catalog, matches[0], value, fuel - 1)
  }

  function Accepting(catalog: Catalog, resource: string, variants: seq<OrderedValue>, value: Json, fuel: nat)
    : Rendered<seq<Schema>>
    decreases fuel, 2, |variants|
  {
    if variants == [] then Ok([]) else
    var schema := Schema(resource, variants[0]);
    var accepted :- Accepts(catalog, schema, value, fuel);
    var rest :- Accepting(catalog, resource, variants[1..], value, fuel);
    Ok(if accepted then [schema] + rest else rest)
  }

  function Accepts(catalog: Catalog, schema: Schema, value: Json, fuel: nat): Rendered<bool>
    decreases fuel, 1
  {
    match Dereference(catalog, schema)
    case Err(_) => Ok(false)
    case Ok(schema) =>
      match schema.value.Get("type")
      case Some(OArray(kinds)) =>
        Ok(exists i :: 0 <= i < |kinds| && kinds[i].OString? && TypeMatches(kinds[i].text, value))
      case Some(OString(kind)) => Ok(TypeMatches(kind, value))
      case _ =>
        if schema.value.Get("oneOf").Some? || schema.value.Get("anyOf").Some? then
          match Choose(catalog, schema, value, fuel)
          case Ok(_) => Ok(true)
          case Err(Diverges) => Err(Diverges)
          case Err(_) => Ok(false)
        else Ok(true)
  }

  /* ---------- member layout ---------- */

  datatype Field = Field(name: string, schema: Schema)

  datatype Additional = Closed | Any | Governed(schema: Schema)

  datatype MemberLayout = MemberLayout(fields: seq<Field>, additional: Additional)

  ghost predicate DistinctNames(fields: seq<Field>) {
    forall i, j :: 0 <= i < j < |fields| ==> fields[i].name != fields[j].name
  }

  predicate HasField(fields: seq<Field>, name: string) {
    exists i :: 0 <= i < |fields| && fields[i].name == name
  }

  /** The first declaration of a name wins. */
  function AddProperties(fields: seq<Field>, resource: string, properties: seq<(string, OrderedValue)>): (r: seq<Field>)
    ensures DistinctNames(fields) ==> DistinctNames(r)
    decreases |properties|
  {
    if properties == [] then fields
    else if HasField(fields, properties[0].0) then AddProperties(fields, resource, properties[1..])
    else
      AddProperties(fields + [Field(properties[0].0, Schema(resource, properties[0].1))], resource, properties[1..])
  }

  function AdditionalOf(schema: Schema, inherited: Additional): Rendered<Additional> {
    match schema.value.Get("additionalProperties")
    case None => Ok(inherited)
    case Some(OBool(flag)) => Ok(if flag then Any else Closed)
    case Some(OObject(entries)) => Ok(Governed(Schema(schema.resource, OObject(entries))))
    case Some(_) => Err(BadAdditional)
  }

  function PropertiesOf(schema: Schema): seq<(string, OrderedValue)> {
    match schema.value.Get("properties")
    case Some(OObject(entries)) => entries
    case _ => []
  }

  function AllOf(schema: Schema): seq<OrderedValue> {
    match schema.value.Get("allOf")
    case Some(OArray(items)) => items
    case _ => []
  }

  function CollectLayout(catalog: Catalog, schema: Schema, acc: MemberLayout, fuel: nat): (r: Rendered<MemberLayout>)
    ensures r.Ok? && DistinctNames(acc.fields) ==> DistinctNames(r.value.fields)
    decreases fuel, 0
  {
    if fuel == 0 then Err(Diverges) else
    var schema :- Dereference(catalog, schema);
    var fields := AddProperties(acc.fields, schema.resource, PropertiesOf(schema));
    var additional :- AdditionalOf(schema, acc.additional);
    CollectAll(catalog, schema.resource, AllOf(schema), MemberLayout(fields, additional), fuel - 1)
  }

  function CollectAll(catalog: Catalog, resource: string, parts: seq<OrderedValue>, acc: MemberLayout, fuel: nat)
    : (r: Rendered<MemberLayout>)
    ensures r.Ok? && DistinctNames(acc.fields) ==> DistinctNames(r.value.fields)
    decreases fuel, 1, |parts|
  {
    if parts == [] then Ok(acc) else
    var next :- CollectLayout(catalog, Schema(resource, parts[0]), acc, fuel);
    CollectAll(catalog, resource, parts[1..], next, fuel)
  }

  function LayoutOf(catalog: Catalog, schema: Schema, fuel: nat): (r: Rendered<MemberLayout>)
    ensures r.Ok? ==> DistinctNames(r.value.fields)
  {
    var schema :- Dereference(catalog, schema);
    CollectLayout(catalog, schema, MemberLayout([], Closed), fuel)
  }

  function ItemsOf(catalog: Catalog, schema: Schema): Rendered<Schema> {
    var schema :- Dereference(catalog, schema);
    match schema.value.Get("items")
    case Some(items) => Ok(Schema(schema.resource, items))
    case None => Err(NoItemsSchema)
  }

  /** Layout collection as the program performs it: one field list and one policy, updated in place. */
  class LayoutCollector {
    var fields: seq<Field>
    var additional: Additional

    constructor ()
      ensures fields == [] && additional == Closed
    {
      fields, additional := [], Closed;
    }

    method Collect(catalog: Catalog, schema: Schema, fuel: nat) returns (r: Rendered<()>)
      modifies this
      ensures var expected := CollectLayout(catalog, schema, old(MemberLayout(fields, additional)), fuel);
              if expected.Ok? then r == Ok(()) && MemberLayout(fields, additional) == expected.value
              else r == Err(expected.error)
      decreases fuel
    {
      hide Dereference, PropertiesOf, AdditionalOf, AllOf, HasField, DistinctNames;
      if fuel == 0 {
        return Err(Diverges);
      }
      var schema :- Dereference(catalog, schema);
      var properties := PropertiesOf(schema);
      ghost var before := fields;
      for i := 0 to |properties|
        invariant additional == old(additional)
        invariant AddProperties(before, schema.resource, properties) == AddProperties(fields, schema.resource, properties[i..])
      {
        assert properties[i..][1..] == properties[i + 1..];
        if !HasField(fields, properties[i].0) {
          fields := fields + [Field(properties[i].0, Schema(schema.resource, properties[i].1))];
        }
      }
      additional :- AdditionalOf(schema, additional);
      var parts := AllOf(schema);
      ghost var start := MemberLayout(fields, additional);
      for i := 0 to |parts|
        invariant CollectAll(catalog, schema.resource, parts, start, fuel - 1)
               == CollectAll(catalog, schema.resource, parts[i..], MemberLayout(fields, additional), fuel - 1)
      {
        assert parts[i..][1..] == parts[i + 1..];
        var _ :- Collect(catalog, Schema(schema.resource, parts[i]), fuel - 1);
      }
      return Ok(());
    }
  }
}
