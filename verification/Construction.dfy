/**
 * The parts of authoring construction: identities, the sources built for fragments and relationships, the
 * candidates made from them, and the JSON form of artifacts.
 */
module Construction {
  import opened Prelude
  import opened Strings
  import opened SchemaCatalog
  import opened Sealing
  import opened Base64

  type Fields = map<string, Json>

  /** A reference of a fragment: to another part of the request, or to the reference basis. */
  datatype Reference = Reference(key: Option<Json>, kind: string, target: string, expectedType: Json, qualification: Json)

  datatype Fragment = Fragment(
    key: string, operation: string, kind: string, semanticType: string, qualification: Json, fields: Fields,
    references: seq<Reference>)

  /** The target named by an endpoint; `None` when the endpoint is not an object. */
  type Endpoint = Option<string>

  datatype Relationship = Relationship(
    key: string, semanticType: string, qualification: Json, fields: Fields, source: Endpoint, target: Endpoint)

  datatype Composition = Composition(parent: string, child: string)

  /** A validated request with what its basis supplies. */
  datatype Request = Request(
    fragments: seq<Fragment>, relationships: seq<Relationship>, compositions: seq<Composition>, prefix: string,
    contract: Json, registry: map<string, string>)

  /** Fragments first, then relationships: the order in which everything is established and built. */
  datatype Item = OfFragment(fragment: Fragment) | OfRelationship(relationship: Relationship) {
    function Key(): string { if OfFragment? then fragment.key else relationship.key }
    function Operation(): string { if OfFragment? then fragment.operation else "create" }
    function SemanticType(): string { if OfFragment? then fragment.semanticType else relationship.semanticType }
    function Qualification(): Json { if OfFragment? then fragment.qualification else relationship.qualification }
    function Fields(): map<string, Json> { if OfFragment? then fragment.fields else relationship.fields }

    /** The identity that the request brings along. */
    function Supplied(): Option<string> {
      if "id" in Fields() && Fields()["id"].Str? then Some(Fields()["id"].text) else None
    }

    function Kind(): string {
      if OfFragment? && fragment.kind == "adr" then "authoring_document" else "authoring_fragment"
    }
  }

  function Items(request: Request): (items: seq<Item>)
    ensures |items| == |request.fragments| + |request.relationships|
  {
    seq(|request.fragments| + |request.relationships|, i requires 0 <= i < |request.fragments| + |request.relationships| =>
      if i < |request.fragments| then OfFragment(request.fragments[i])
      else OfRelationship(request.relationships[i - |request.fragments|]))
  }

  /* ---------- identities ---------- */

  datatype Disposition = Reused | Preserved | Minted

  datatype Identity = Identity(id: string, disposition: Disposition)

  type Table = map<string, Identity>

  /** A supplied identity is kept; an update must supply one; anything else is minted, if the minter can. */
  function Establish(operation: string, supplied: Option<string>, minted: Option<string>): Option<Identity> {
    match supplied
    case Some(id) => Some(Identity(id, if operation == "reference" then Reused else Preserved))
    case None =>
      if operation == "update" then None
      else match minted case Some(id) => Some(Identity(id, Minted)) case None => None
  }

  predicate AsksMinter(item: Item) {
    item.Supplied().None? && item.Operation() != "update"
  }

  /* ---------- aliases ---------- */

  function ToUpper(s: string): string {
    seq(|s|, i requires 0 <= i < |s| =>
      if 'a' <= s[i] <= 'z' then (s[i] as int - 'a' as int + 'A' as int) as char else s[i])
  }

  function Hyphenated(s: string): string {
    seq(|s|, i requires 0 <= i < |s| => if s[i] == '_' then '-' else s[i])
  }

  function AliasFor(semanticType: string): string {
    var stem :=
      match SplitOnce(semanticType, ':')
      case Some(parts) => parts.0
      case None => (match SplitOnce(semanticType, '/') case Some(parts) => parts.1 case None => semanticType);
    Hyphenated(ToUpper(stem)) + "-0001"
  }

  function AliasNameFor(semanticType: string): string {
    match SplitOnce(semanticType, ':')
    case Some(parts) => Hyphenated(parts.1)
    case None => (match SplitOnce(semanticType, '/') case Some(parts) => parts.1 case None => semanticType)
  }

  function WithAlias(fields: Fields, semanticType: string): (r: Fields)
    ensures "id" in fields ==> "id" in r && r["id"] == fields["id"]
  {
    var alias := if "alias_id" in fields && fields["alias_id"].Str? then fields["alias_id"].text else AliasFor(semanticType);
    var normalized := if EndsWith(alias, "-CONFORMANCE") then TrimEnd(alias, "-CONFORMANCE") + "-0001" else alias;
    var aliased := fields["alias_id" := Str(normalized)];
    if "alias_name" in aliased then aliased else aliased["alias_name" := Str(AliasNameFor(semanticType))]
  }

  /* ---------- sources ---------- */

  function OrInsert(fields: Fields, key: string, value: Json): Fields {
    if key in fields then fields else fields[key := value]
  }

  function WithCustomType(fields: Fields, fragment: Fragment): (r: Fields)
    ensures "id" in fields ==> "id" in r && r["id"] == fields["id"]
  {
    if ':' !in fragment.semanticType then fields else
    var typed := fields["entity_type" := Str(fragment.semanticType)]["qualification" := fragment.qualification];
    OrInsert(OrInsert(typed, "properties", Obj(map[])), "rationale",
      Str(if fragment.operation == "reference" then "Reference source evidence." else "Explicit."))
  }

  function Find(fragments: seq<Fragment>, key: string): Option<Fragment> {
    if fragments == [] then None else if fragments[0].key == key then Some(fragments[0]) else Find(fragments[1..], key)
  }

  /** The sources of the fragments composed into a logical document, with their own identities. */
  function Children(compositions: seq<Composition>, parent: string, table: Table, fragments: seq<Fragment>): seq<Json> {
    if compositions == [] then [] else
    var rest := Children(compositions[1..], parent, table, fragments);
    var child := compositions[0].child;
    if compositions[0].parent != parent || child !in table then rest else
    match Find(fragments, child)
    case None => rest
    case Some(f) => [Obj(WithAlias(f.fields["id" := Str(table[child].id)], f.semanticType))] + rest
  }

  function WithPurpose(topology: Json): Json {
    if !(topology.Obj? && "components" in topology.fields && topology.fields["components"].Arr?) then topology else
    var components := topology.fields["components"].items;
    Obj(topology.fields["components" := Arr(seq(|components|, i requires 0 <= i < |components| =>
      if components[i].Obj? then Obj(OrInsert(components[i].fields, "purpose", Str("Explicit topology component.")))
      else components[i]))])
  }

  function WithDocument(fields: Fields, fragment: Fragment, identity: Identity, table: Table, request: Request): (r: Fields)
    ensures "id" in fields ==> "id" in r && r["id"] == fields["id"]
  {
    if !StartsWith(fragment.semanticType, "adr/") then fields else
    var versioned := fields["schema_version" := Str("1.7")];
    if fragment.semanticType == "adr/logical" then
      var children := Children(request.compositions, fragment.key, table, request.fragments);
      if children == [] then versioned else versioned["decisions" := Arr(children)]
    else if fragment.semanticType == "adr/physical-system" then
      var system := Obj(map[
        "id" := Str(identity.id), "alias_id" := Str("SYS-0001"),
        "alias_name" := if "alias_name" in versioned then versioned["alias_name"] else Str("system")]);
      var linked := versioned["implements_logical" := Arr([Str(identity.id)])]["system" := system];
      if "component_topology" in linked then linked["component_topology" := WithPurpose(linked["component_topology"])] else linked
    else versioned
  }

  function FragmentSource(fragment: Fragment, identity: Identity, table: Table, request: Request): Json {
    var named := WithAlias(fragment.fields["id" := Str(identity.id)], fragment.semanticType);
    Obj(WithDocument(WithCustomType(named, fragment), fragment, identity, table, request))
  }

  /** The identity of the part of the request that an endpoint names; empty for anything else. */
  function EndpointId(endpoint: Endpoint, table: Table): string {
    match endpoint
    case None => ""
    case Some(target) => if target in table then table[target].id else ""
  }

  function RelationshipSource(r: Relationship, identity: Identity, table: Table): Json {
    Obj(map[
      "id" := Str(identity.id),
      "relationship_type" := Str(r.semanticType),
      "qualification" := r.qualification,
      "alias_id" := Str(AliasFor(r.semanticType)),
      "alias_name" := Str(AliasNameFor(r.semanticType)),
      "from_entity_id" := Str(EndpointId(r.source, table)),
      "to_entity_id" := Str(EndpointId(r.target, table)),
      "properties" := Obj(r.fields),
      "rationale" := Str("Explicit relationship.")])
  }

  function SourceOf(item: Item, identity: Identity, table: Table, request: Request): Json {
    match item
    case OfFragment(f) => FragmentSource(f, identity, table, request)
    case OfRelationship(r) => RelationshipSource(r, identity, table)
  }

  const COMMON := "authoring/1.7/schema/adr-common.schema"

  function SelectorFor(item: Item, source: Json): Selector {
    if item.OfRelationship? then Selector(COMMON, "/definitions/custom_relationship") else
    var t := item.fragment.semanticType;
    if StartsWith(t, "adr/") then
      Selector(if t == "adr/logical" then "authoring/1.7/schema/adr-logical.schema"
               else if t == "adr/physical-system" then "authoring/1.7/schema/adr-physical-system.schema"
               else "authoring/1.7/schema/adr-physical-component.schema", "")
    else if source.Get("relationship_type").Some? then Selector(COMMON, "/definitions/custom_relationship")
    else if ':' in t then Selector(COMMON, "/definitions/custom_entity")
    else Selector(COMMON, "/definitions/" + match SplitOnce(t, '/') case Some(parts) => parts.1 case None => t)
  }

  /* ---------- what a construction contains ---------- */

  datatype Resolved = Resolved(
    key: Json, kind: string, target: string, uuid: string, semanticType: Json, qualification: Json, reused: bool)

  /** References of the request resolve to identities, others through the registry; the rest are dropped. */
  function Resolve(references: seq<Reference>, table: Table, registry: map<string, string>): seq<Resolved> {
    if references == [] then [] else
    var r, rest := references[0], Resolve(references[1..], table, registry);
    if r.key.None? then rest
    else if r.kind == "request" then
      if r.target !in table then rest
      else
        var id := table[r.target].id;
        [Resolved(r.key.value, r.kind, id, id, r.expectedType, r.qualification, false)] + rest
    else if r.target !in registry then rest
    else [Resolved(r.key.value, r.kind, r.target, registry[r.target], r.expectedType, r.qualification, true)] + rest
  }

  datatype CandidateFragment = CandidateFragment(
    key: string, kind: string, semanticType: string, identity: string, qualification: Json, fields: Fields, contract: Json,
    resolved: seq<Resolved>)

  function CandidateOf(item: Item, identity: Identity, table: Table, request: Request): CandidateFragment {
    match item
    case OfFragment(f) =>
      CandidateFragment(f.key, f.kind, f.semanticType, identity.id, f.qualification, f.fields, request.contract,
        Resolve(f.references, table, request.registry))
    case OfRelationship(r) =>
      CandidateFragment(r.key, "relationship", r.semanticType, identity.id, r.qualification, r.fields, request.contract, [])
  }

  datatype MapEntry = MapEntry(
    key: string, operation: string, semanticType: string, id: string, disposition: Disposition, sourceRef: string,
    qualification: Json, active: bool)

  function RefFor(request: Request, key: string): string {
    request.prefix + "/" + key
  }

  function EntryOf(item: Item, identity: Identity, request: Request): MapEntry {
    MapEntry(item.Key(), item.Operation(), item.SemanticType(), identity.id, identity.disposition, RefFor(request, item.Key()),
      item.Qualification(), item.Operation() != "reference")
  }

  /* ---------- the JSON form of an artifact ---------- */

  /** How texts are encoded in bytes; decoding may fail on bytes that are no text. */
  datatype Encoding = Encoding(toBytes: string -> seq<Byte>, toText: seq<Byte> -> Option<string>)

  ghost predicate Faithful(encoding: Encoding) {
    forall s :: encoding.toText(encoding.toBytes(s)) == Some(s)
  }

  function Characters(bytes: seq<Byte>): string {
    seq(|bytes|, i requires 0 <= i < |bytes| => (bytes[i] as int) as char)
  }

  /** The bytes of a text; characters beyond one byte become one that no alphabet has. */
  function Bytes(text: string): seq<Byte> {
    seq(|text|, i requires 0 <= i < |text| => if text[i] as int < 256 then (text[i] as int) as Byte else 0)
  }

  lemma CharactersRoundTrip(bytes: seq<Byte>)
    ensures Bytes(Characters(bytes)) == bytes
  {
  }

  function ArtifactToJson(encoding: Encoding, artifact: Artifact): Json {
    Obj(map[
      "request_key" := Str(artifact.requestKey),
      "source_ref" := Str(artifact.sourceRef),
      "artifact_kind" := Str(artifact.kind),
      "source_schema" := Obj(map[
        "canonical_resource_key" := Str(artifact.selector.resource), "json_pointer" := Str(artifact.selector.pointer)]),
      "serialization_profile" := Str(artifact.profile),
      "content_digest" := Str(artifact.digest),
      "bytes" := Str(Characters(Encode(encoding.toBytes(artifact.text)))),
      "source_contract" := artifact.contract])
  }

  function TextOr(value: Option<Json>): string {
    match value case Some(Str(s)) => s case _ => ""
  }

  method JsonToArtifact(encoding: Encoding, value: Json) returns (r: Option<Artifact>)
    ensures r == ParsedArtifact(encoding, value)
  {
    if !value.Obj? {
      return None;
    }
    var schema := value.Get("source_schema");
    if schema.None? || !schema.value.Obj? {
      return None;
    }
    var encoded := value.Get("bytes");
    if encoded.None? || !encoded.value.Str? {
      return None;
    }
    var bytes := DecodeByGroups(Bytes(encoded.value.text));
    if bytes.None? {
      return None;
    }
    var text := encoding.toText(bytes.value);
    if text.None? {
      return None;
    }
    return Some(Artifact(
      TextOr(value.Get("request_key")), TextOr(value.Get("source_ref")), TextOr(value.Get("artifact_kind")),
      Selector(TextOr(schema.value.Get("canonical_resource_key")), TextOr(schema.value.Get("json_pointer"))),
      TextOr(value.Get("serialization_profile")), TextOr(value.Get("content_digest")), text.value,
      match value.Get("source_contract") case Some(contract) => contract case None => Null));
  }

  function ParsedArtifact(encoding: Encoding, value: Json): Option<Artifact> {
    match (value.Get("source_schema"), value.Get("bytes"))
    case (Some(Obj(schema)), Some(Str(encoded))) =>
      (match DecodeGroups(Bytes(encoded))
       case None => None
       case Some(bytes) =>
         match encoding.toText(bytes)
         case None => None
         case Some(text) =>
           Some(Artifact(
             TextOr(value.Get("request_key")), TextOr(value.Get("source_ref")), TextOr(value.Get("artifact_kind")),
             Selector(TextOr(Obj(schema).Get("canonical_resource_key")), TextOr(Obj(schema).Get("json_pointer"))),
             TextOr(value.Get("serialization_profile")), TextOr(value.Get("content_digest")), text,
             match value.Get("source_contract") case Some(contract) => contract case None => Null)))
    case _ => None
  }

  /** The JSON form keeps the whole artifact, its bytes through base64. */
  lemma ArtifactJsonRoundTrip(encoding: Encoding, artifact: Artifact)
    requires Faithful(encoding)
    ensures ParsedArtifact(encoding, ArtifactToJson(encoding, artifact)) == Some(artifact)
  {
    var bytes := encoding.toBytes(artifact.text);
    DecodersInvertEncoder(bytes);
    hide DecodeGroups, Encode, Bytes, Characters;
    CharactersRoundTrip(Encode(bytes));
  }
}
