/**
 * What the sources of a constructed result contain, member by member: what the request wrote and what the
 * ceremony adds to it.
 */
module ConstructionSources {
  import opened Prelude
  import opened Strings
  import opened Ordering
  import opened Grouping
  import opened SchemaCatalog
  import opened Renderer
  import opened Sealing
  import opened SourceBasis
  import opened Construction
  import opened ConstructionRun
  import opened ConstructionLaws

  /* ---------- aliases ---------- */

  function Shouted(c: char): char {
    if 'a' <= c <= 'z' then (c as int - 32) as char else if c == '_' then '-' else c
  }

  /** The text before and behind the first occurrence of a character. */
  ghost predicate CutAt(t: string, c: char, before: string, behind: string) {
    c !in before && t == before + [c] + behind
  }

  /** The namespace of a qualified type, the name of a type with a family, or the whole type. */
  ghost predicate StemOf(t: string, stem: string) {
    if ':' in t then exists behind :: CutAt(t, ':', stem, behind)
    else if '/' in t then exists before :: CutAt(t, '/', before, stem)
    else stem == t
  }

  /** The alias of a type that brings none: its stem in capitals, numbered. */
  ghost predicate DefaultAlias(t: string, alias: string) {
    exists stem :: StemOf(t, stem) && |alias| == |stem| + 5 && alias[|stem|..] == "-0001"
                   && forall i :: 0 <= i < |stem| ==> alias[i] == Shouted(stem[i])
  }

  /** The alias name of a type that brings none. */
  ghost predicate DefaultName(t: string, name: string) {
    if ':' in t then
      exists before, behind :: CutAt(t, ':', before, behind) && |name| == |behind|
                               && forall i :: 0 <= i < |name| ==> name[i] == if behind[i] == '_' then '-' else behind[i]
    else if '/' in t then exists before :: CutAt(t, '/', before, name)
    else name == t
  }

  function Conformances(n: nat): string {
    if n == 0 then "" else Conformances(n - 1) + "-CONFORMANCE"
  }

  /** An alias as it is written: every conformance suffix makes way for a number. */
  ghost predicate Numbered(alias: string, written: string) {
    if EndsWith(alias, "-CONFORMANCE") then
      exists name, n: nat :: !EndsWith(name, "-CONFORMANCE") && alias == name + Conformances(n) && written == name + "-0001"
    else written == alias
  }

  /** The alias of a source: that of its fields or of its type, numbered. */
  ghost predicate Aliased(fields: Fields, t: string, value: Option<Json>) {
    exists alias, written :: value == Some(Str(written)) && Numbered(alias, written)
      && if "alias_id" in fields && fields["alias_id"].Str? then fields["alias_id"] == Str(alias) else DefaultAlias(t, alias)
  }

  ghost predicate NamedAs(fields: Fields, t: string, value: Option<Json>) {
    if "alias_name" in fields then value == Some(fields["alias_name"])
    else exists name :: value == Some(Str(name)) && DefaultName(t, name)
  }

  lemma CutOnce(t: string, c: char)
    ensures SplitOnce(t, c).Some? <==> c in t
    ensures SplitOnce(t, c).Some? ==> CutAt(t, c, SplitOnce(t, c).value.0, SplitOnce(t, c).value.1)
  {
    SplitsAtFirst(t, c);
  }

  lemma AliasMeans(t: string)
    ensures DefaultAlias(t, AliasFor(t))
  {
    CutOnce(t, ':');
    CutOnce(t, '/');
    var stem := match SplitOnce(t, ':')
      case Some(parts) => parts.0
      case None => (match SplitOnce(t, '/') case Some(parts) => parts.1 case None => t);
    assert StemOf(t, stem);
    hide StemOf, SplitOnce;
    var alias := AliasFor(t);
    assert alias == Hyphenated(ToUpper(stem)) + "-0001";
    forall i | 0 <= i < |stem| ensures alias[i] == Shouted(stem[i]) {
      assert ToUpper(stem)[i] == if 'a' <= stem[i] <= 'z' then (stem[i] as int - 32) as char else stem[i];
    }
  }

  lemma NameMeans(t: string)
    ensures DefaultName(t, AliasNameFor(t))
  {
    CutOnce(t, ':');
    CutOnce(t, '/');
    hide SplitOnce;
    if ':' in t {
      var parts := SplitOnce(t, ':').value;
      assert CutAt(t, ':', parts.0, parts.1);
    }
  }

  lemma {:induction false} TrimmedConformance(alias: string)
    ensures var name := TrimEnd(alias, "-CONFORMANCE");
            !EndsWith(name, "-CONFORMANCE") && exists n: nat :: alias == name + Conformances(n)
    decreases |alias|
  {
    if EndsWith(alias, "-CONFORMANCE") {
      var shorter := alias[..|alias| - 12];
      assert alias == shorter + "-CONFORMANCE";
      hide EndsWith, Conformances;
      TrimmedConformance(shorter);
      OneMoreConformance(shorter, TrimEnd(shorter, "-CONFORMANCE"));
    } else {
      assert alias == alias + Conformances(0);
    }
  }

  lemma OneMoreConformance(shorter: string, name: string)
    requires exists n: nat :: shorter == name + Conformances(n)
    ensures exists n: nat :: shorter + "-CONFORMANCE" == name + Conformances(n)
  {
    var n: nat :| shorter == name + Conformances(n);
    assert shorter + "-CONFORMANCE" == name + (Conformances(n) + "-CONFORMANCE");
    assert Conformances(n + 1) == Conformances(n) + "-CONFORMANCE";
  }

  /** What the ceremony makes of the fields of one element. */
  ghost predicate ElementSays(fields: Fields, t: string, source: Json) {
    source.Obj? && Aliased(fields, t, source.Get("alias_id")) && NamedAs(fields, t, source.Get("alias_name"))
    && forall key :: key !in {"alias_id", "alias_name"} ==> source.Get(key) == Obj(fields).Get(key)
  }

  lemma AliasWritten(fields: Fields, t: string)
    ensures var alias := if "alias_id" in fields && fields["alias_id"].Str? then fields["alias_id"].text else AliasFor(t);
            var written := if EndsWith(alias, "-CONFORMANCE") then TrimEnd(alias, "-CONFORMANCE") + "-0001" else alias;
            Aliased(fields, t, Some(Str(written)))
  {
    AliasMeans(t);
    var alias := if "alias_id" in fields && fields["alias_id"].Str? then fields["alias_id"].text else AliasFor(t);
    hide AliasFor, DefaultAlias, TrimEnd, EndsWith, Numbered;
    NumberedMeans(alias);
  }

  lemma NumberedMeans(alias: string)
    ensures Numbered(alias, if EndsWith(alias, "-CONFORMANCE") then TrimEnd(alias, "-CONFORMANCE") + "-0001" else alias)
  {
    TrimmedConformance(alias);
    hide TrimEnd, EndsWith, Conformances;
  }

  lemma ElementMeans(fields: Fields, t: string)
    ensures ElementSays(fields, t, Obj(WithAlias(fields, t)))
  {
    AliasWritten(fields, t);
    NameMeans(t);
    hide AliasFor, AliasNameFor, Aliased, DefaultName, TrimEnd, EndsWith;
  }

  /* ---------- fragments ---------- */

  /** A source with more members than the one it is made of, none of them lost or changed but these. */
  ghost predicate Extends(before: Fields, after: Fields, written: set<string>) {
    forall key :: key !in written ==> Obj(after).Get(key) == Obj(before).Get(key)
  }

  ghost predicate OrElse(before: Fields, after: Fields, key: string, default: Json) {
    Obj(after).Get(key) == Some(if key in before then before[key] else default)
  }

  /** What a qualified type adds: itself, its qualification, and properties and a rationale where there are none. */
  ghost predicate CustomSays(fragment: Fragment, before: Fields, after: Fields) {
    if ':' !in fragment.semanticType then after == before
    else
      && Extends(before, after, {"entity_type", "qualification", "properties", "rationale"})
      && Obj(after).Get("entity_type") == Some(Str(fragment.semanticType))
      && Obj(after).Get("qualification") == Some(fragment.qualification)
      && OrElse(before, after, "properties", Obj(map[]))
      && OrElse(before, after, "rationale", Str(if fragment.operation == "reference" then "Reference source evidence." else "Explicit."))
  }

  /** A component is as it was, but has a purpose. */
  ghost predicate Purposed(before: Json, after: Json) {
    if !before.Obj? then after == before
    else
      after.Obj? && Extends(before.fields, after.fields, {"purpose"})
      && OrElse(before.fields, after.fields, "purpose", Str("Explicit topology component."))
  }

  /** A topology is as it was, but its components have purposes. */
  ghost predicate TopologySays(before: Json, after: Json) {
    if before.Obj? && "components" in before.fields && before.fields["components"].Arr? then
      after.Obj? && Extends(before.fields, after.fields, {"components"})
      && exists items :: after.Get("components") == Some(Arr(items)) && |items| == |before.fields["components"].items|
                         && forall i :: 0 <= i < |items| ==> Purposed(before.fields["components"].items[i], items[i])
    else after == before
  }

  /** The system that a physical-system document describes. */
  ghost predicate SystemSays(before: Fields, id: string, system: Option<Json>) {
    system.Some? && system.value.Obj? && system.value.fields.Keys == {"id", "alias_id", "alias_name"}
    && system.value.Get("id") == Some(Str(id)) && system.value.Get("alias_id") == Some(Str("SYS-0001"))
    && system.value.Get("alias_name") == Some(if "alias_name" in before then before["alias_name"] else Str("system"))
  }

  /** What the kind of document adds. */
  ghost predicate DocumentSays(t: string, id: string, children: seq<Json>, before: Fields, after: Fields) {
    if !StartsWith(t, "adr/") then after == before
    else
      && Obj(after).Get("schema_version") == Some(Str("1.7"))
      && if t == "adr/logical" then
           Extends(before, after, {"schema_version", "decisions"})
           && Obj(after).Get("decisions") == if children == [] then Obj(before).Get("decisions") else Some(Arr(children))
         else if t == "adr/physical-system" then
           Extends(before, after, {"schema_version", "implements_logical", "system", "component_topology"})
           && Obj(after).Get("implements_logical") == Some(Arr([Str(id)]))
           && SystemSays(before, id, Obj(after).Get("system"))
           && (if "component_topology" in before then
                 "component_topology" in after && TopologySays(before["component_topology"], after["component_topology"])
               else "component_topology" !in after)
         else Extends(before, after, {"schema_version"})
  }

  /** The source of a fragment: its fields with its identity and alias, then what its type and its document add. */
  ghost predicate FragmentSays(fragment: Fragment, id: string, children: seq<Json>, source: Json) {
    exists named: Json, typed: Fields ::
      ElementSays(fragment.fields["id" := Str(id)], fragment.semanticType, named)
      && CustomSays(fragment, named.fields, typed)
      && source.Obj? && DocumentSays(fragment.semanticType, id, children, typed, source.fields)
  }

  lemma CustomMeans(fragment: Fragment, before: Fields)
    ensures CustomSays(fragment, before, WithCustomType(before, fragment))
  {
  }

  lemma PurposeMeans(topology: Json)
    ensures TopologySays(topology, WithPurpose(topology))
  {
    if topology.Obj? && "components" in topology.fields && topology.fields["components"].Arr? {
      var items := topology.fields["components"].items;
      var after := WithPurpose(topology);
      assert after.Get("components") == Some(Arr(after.fields["components"].items));
      forall i | 0 <= i < |items| ensures Purposed(items[i], after.fields["components"].items[i]) {
      }
    }
  }

  lemma DocumentMeans(before: Fields, fragment: Fragment, identity: Identity, table: Table, request: Request)
    ensures var children := Children(request.compositions, fragment.key, table, request.fragments);
            DocumentSays(fragment.semanticType, identity.id, children, before, WithDocument(before, fragment, identity, table, request))
  {
    hide Children, TopologySays, WithPurpose;
    if "component_topology" in before {
      PurposeMeans(before["component_topology"]);
    }
  }

  lemma FragmentMeans(fragment: Fragment, identity: Identity, table: Table, request: Request)
    ensures var children := Children(request.compositions, fragment.key, table, request.fragments);
            FragmentSays(fragment, identity.id, children, FragmentSource(fragment, identity, table, request))
  {
    hide Children, WithAlias, WithCustomType, WithDocument, ElementSays, CustomSays, DocumentSays;
    var named := WithAlias(fragment.fields["id" := Str(identity.id)], fragment.semanticType);
    ElementMeans(fragment.fields["id" := Str(identity.id)], fragment.semanticType);
    CustomMeans(fragment, named);
    DocumentMeans(WithCustomType(named, fragment), fragment, identity, table, request);
    assert Obj(named).fields == named;
  }

  /* ---------- composed children ---------- */

  /** The composition is one of this parent, and its child is a fragment of the request. */
  ghost function Composes(parent: string, table: Table, fragments: seq<Fragment>): Composition -> bool {
    (c: Composition) => c.parent == parent && c.child in table && exists f :: f in fragments && f.key == c.child
  }

  /** The child's fields with its own identity and alias. */
  ghost function ChildShows(table: Table, fragments: seq<Fragment>): (Composition, Json) -> bool {
    (c: Composition, child: Json) =>
      c.child in table
      && exists f :: FirstFragment(fragments, c.child, f) && ElementSays(f.fields["id" := Str(table[c.child].id)], f.semanticType, child)
  }

  ghost predicate FirstFragment(fragments: seq<Fragment>, key: string, f: Fragment) {
    exists i :: 0 <= i < |fragments| && fragments[i] == f && f.key == key && forall j :: 0 <= j < i ==> fragments[j].key != key
  }

  lemma {:induction false} FindMeans(fragments: seq<Fragment>, key: string)
    ensures Find(fragments, key).Some? <==> exists f :: f in fragments && f.key == key
    ensures Find(fragments, key).Some? ==> FirstFragment(fragments, key, Find(fragments, key).value)
  {
    if fragments != [] {
      var rest := fragments[1..];
      assert fragments == [fragments[0]] + rest;
      FindMeans(rest, key);
      if fragments[0].key != key && Find(rest, key).Some? {
        var f := Find(rest, key).value;
        var i :| 0 <= i < |rest| && rest[i] == f && f.key == key && forall j :: 0 <= j < i ==> rest[j].key != key;
        assert fragments[i + 1] == f;
        assert forall j :: 0 < j < i + 1 ==> fragments[j] == rest[j - 1];
      }
    }
  }

  /** The children of a document, exactly: one for every composition that names a fragment, in their order. */
  lemma {:induction false} ChildrenMean(compositions: seq<Composition>, parent: string, table: Table, fragments: seq<Fragment>)
    ensures Picked(compositions, Composes(parent, table, fragments), ChildShows(table, fragments),
              Children(compositions, parent, table, fragments))
  {
    hide ElementSays, FirstFragment, WithAlias, Find;
    if compositions != [] {
      ChildrenMean(compositions[1..], parent, table, fragments);
      var c, rest := compositions[0], Children(compositions[1..], parent, table, fragments);
      FindMeans(fragments, c.child);
      if c.parent == parent && c.child in table && Find(fragments, c.child).Some? {
        var f := Find(fragments, c.child).value;
        ElementMeans(f.fields["id" := Str(table[c.child].id)], f.semanticType);
        var child := Obj(WithAlias(f.fields["id" := Str(table[c.child].id)], f.semanticType));
        assert ([child] + rest)[1..] == rest;
      }
    }
  }

  /* ---------- relationships ---------- */

  /** The source of a relationship, beside its endpoints. */
  ghost predicate RelationshipSays(r: Relationship, id: string, source: Json) {
    source.Get("id") == Some(Str(id)) && source.Get("relationship_type") == Some(Str(r.semanticType))
    && source.Get("qualification") == Some(r.qualification) && source.Get("properties") == Some(Obj(r.fields))
    && source.Get("rationale") == Some(Str("Explicit relationship."))
    && (exists alias :: source.Get("alias_id") == Some(Str(alias)) && DefaultAlias(r.semanticType, alias))
    && (exists name :: source.Get("alias_name") == Some(Str(name)) && DefaultName(r.semanticType, name))
    && source.Obj? && source.fields.Keys
       == {"id", "relationship_type", "qualification", "properties", "rationale", "alias_id", "alias_name", "from_entity_id",
           "to_entity_id"}
  }

  lemma RelationshipMeans(r: Relationship, identity: Identity, table: Table)
    ensures RelationshipSays(r, identity.id, RelationshipSource(r, identity, table))
  {
    AliasMeans(r.semanticType);
    NameMeans(r.semanticType);
    hide AliasFor, AliasNameFor, DefaultAlias, DefaultName, EndpointId;
  }

  /* ---------- selectors, references and entries ---------- */

  /** The schema that a part is written under. */
  ghost predicate Selects(item: Item, source: Json, selector: Selector) {
    if item.OfRelationship? then
      selector == Selector("authoring/1.7/schema/adr-common.schema", "/definitions/custom_relationship")
    else
      var t := item.fragment.semanticType;
      if StartsWith(t, "adr/") then
        selector.pointer == ""
        && (t == "adr/logical" ==> selector.resource == "authoring/1.7/schema/adr-logical.schema")
        && (t == "adr/physical-system" ==> selector.resource == "authoring/1.7/schema/adr-physical-system.schema")
        && (t !in {"adr/logical", "adr/physical-system"} ==> selector.resource == "authoring/1.7/schema/adr-physical-component.schema")
      else
        selector.resource == "authoring/1.7/schema/adr-common.schema"
        && if source.Get("relationship_type").Some? then selector.pointer == "/definitions/custom_relationship"
           else if ':' in t then selector.pointer == "/definitions/custom_entity"
           else exists name :: selector.pointer == "/definitions/" + name && StemOf(t, name)
  }

  lemma StemBehindSlash(t: string)
    ensures ':' !in t ==> StemOf(t, match SplitOnce(t, '/') case Some(parts) => parts.1 case None => t)
  {
    CutOnce(t, '/');
    hide SplitOnce;
    if '/' in t {
      assert CutAt(t, '/', SplitOnce(t, '/').value.0, SplitOnce(t, '/').value.1);
    }
  }

  lemma SelectorMeans(item: Item, source: Json)
    ensures Selects(item, source, SelectorFor(item, source))
  {
    hide StartsWith;
    if item.OfFragment? {
      StemBehindSlash(item.fragment.semanticType);
    }
    hide StemOf, SplitOnce;
  }

  /** The reference names something that is known: a part of the request, or an entry of the basis. */
  ghost function Resolves(table: Table, registry: map<string, string>): Reference -> bool {
    (r: Reference) => r.key.Some? && if r.kind == "request" then r.target in table else r.target in registry
  }

  /** A reference of the request is resolved to an identity, another one reuses what the registry names. */
  ghost function ReferenceShows(table: Table, registry: map<string, string>): (Reference, Resolved) -> bool {
    (r: Reference, x: Resolved) =>
      && r.key == Some(x.key) && x.kind == r.kind && x.semanticType == r.expectedType && x.qualification == r.qualification
      && if r.kind == "request" then r.target in table && x.target == table[r.target].id && x.uuid == table[r.target].id && !x.reused
         else r.target in registry && x.target == r.target && x.uuid == registry[r.target] && x.reused
  }

  lemma {:induction false} ResolveMeans(references: seq<Reference>, table: Table, registry: map<string, string>)
    ensures Picked(references, Resolves(table, registry), ReferenceShows(table, registry), Resolve(references, table, registry))
  {
    if references != [] {
      ResolveMeans(references[1..], table, registry);
      var rest, all := Resolve(references[1..], table, registry), Resolve(references, table, registry);
      if Resolves(table, registry)(references[0]) {
        assert all == [all[0]] + rest && all[1..] == rest;
      }
    }
  }

  /** The line of a part in the map of the construction. */
  ghost predicate EntrySays(item: Item, identity: Identity, request: Request, e: MapEntry) {
    e.id == identity.id && e.disposition == identity.disposition
    && match item
       case OfFragment(f) =>
         e.key == f.key && e.operation == f.operation && e.semanticType == f.semanticType && e.qualification == f.qualification
         && e.sourceRef == request.prefix + "/" + f.key && (e.active <==> f.operation != "reference")
       case OfRelationship(r) =>
         e.key == r.key && e.operation == "create" && e.semanticType == r.semanticType && e.qualification == r.qualification
         && e.sourceRef == request.prefix + "/" + r.key && e.active
  }

  /** The candidate of a part: what the request says of it, its identity, and its resolved references. */
  ghost predicate CandidateSays(item: Item, identity: Identity, table: Table, request: Request, c: CandidateFragment) {
    c.identity == identity.id && c.contract == request.contract
    && match item
       case OfFragment(f) =>
         c.key == f.key && c.kind == f.kind && c.semanticType == f.semanticType && c.qualification == f.qualification
         && c.fields == f.fields
         && Picked(f.references, Resolves(table, request.registry), ReferenceShows(table, request.registry), c.resolved)
       case OfRelationship(r) =>
         c.key == r.key && c.kind == "relationship" && c.semanticType == r.semanticType && c.qualification == r.qualification
         && c.fields == r.fields && c.resolved == []
  }

  lemma EntryAndCandidateMean(item: Item, identity: Identity, table: Table, request: Request)
    ensures EntrySays(item, identity, request, EntryOf(item, identity, request))
    ensures CandidateSays(item, identity, table, request, CandidateOf(item, identity, table, request))
  {
    if item.OfFragment? {
      ResolveMeans(item.fragment.references, table, request.registry);
    }
    hide Picked, Resolve;
  }

  /* ---------- identities ---------- */

  /** The identity that a part brings along. */
  ghost predicate Brings(item: Item, id: string) {
    match item
    case OfFragment(f) => Obj(f.fields).Get("id") == Some(Str(id))
    case OfRelationship(r) => Obj(r.fields).Get("id") == Some(Str(id))
  }

  ghost predicate Updates(item: Item) {
    item.OfFragment? && item.fragment.operation == "update"
  }

  /** The part is neither given an identity nor an update. */
  ghost function NeedsMint(item: Item): bool {
    !Updates(item) && !exists id :: Brings(item, id)
  }

  /**
   * The identity of a part: the one it brings along, reused where it is a reference; none for an update that
   * brings none; and else the answer to a call of the minter, one call for every part that needs it.
   */
  ghost predicate IdentitySays(items: seq<Item>, i: nat, mint: nat -> Option<string>, identity: Option<Identity>)
    requires i < |items|
  {
    var reference := items[i].OfFragment? && items[i].fragment.operation == "reference";
    (forall id :: Brings(items[i], id) ==> identity == Some(Identity(id, if reference then Reused else Preserved)))
    && (Updates(items[i]) && !(exists id :: Brings(items[i], id)) ==> identity == None)
    && (NeedsMint(items[i]) ==>
          match mint(|Having(NeedsMint, true, items[..i])|)
          case Some(id) => identity == Some(Identity(id, Minted))
          case None => identity == None)
  }

  lemma AsksMean(item: Item)
    ensures AsksMinter(item) <==> NeedsMint(item)
    ensures forall id :: Brings(item, id) <==> item.Supplied() == Some(id)
  {
    if item.Supplied().Some? {
      assert Brings(item, item.Supplied().value);
    }
  }

  lemma {:induction false} AsksCount(items: seq<Item>)
    ensures Asks(items) == |Having(NeedsMint, true, items)|
  {
    hide NeedsMint, AsksMinter;
    if items != [] {
      AsksCount(items[..|items| - 1]);
      AsksMean(items[|items| - 1]);
    }
  }

  lemma IdentityMeans(items: seq<Item>, i: nat, mint: nat -> Option<string>)
    requires i < |items|
    ensures IdentitySays(items, i, mint, IdentityAt(items, i, mint))
  {
    AsksCount(items[..i]);
    AsksMean(items[i]);
    hide Asks, Having, Brings;
  }

  /* ---------- the constructed result ---------- */

  /** The table holds the identities of the parts of the request and nothing else. */
  ghost predicate Tells(items: seq<Item>, mint: nat -> Option<string>, table: Table) {
    (forall j: nat :: j < |items| ==> items[j].Key() in table && Some(table[items[j].Key()]) == IdentityAt(items, j, mint))
    && forall key :: key in table ==> exists item :: item in items && item.Key() == key
  }

  /** What the source of a part says. */
  ghost predicate SourceSays(w: World, request: Request, item: Item, id: string, table: Table, source: Json) {
    match item
    case OfFragment(f) =>
      exists children ::
        Picked(request.compositions, Composes(f.key, table, request.fragments), ChildShows(table, request.fragments), children)
        && FragmentSays(f, id, children, source)
    case OfRelationship(r) => RelationshipSays(r, id, source) && Joins(w, request, r, source)
  }

  /** The artifact is sealed for this part. */
  ghost predicate SealedFor(request: Request, item: Item, source: Json, artifact: Artifact) {
    artifact.requestKey == item.Key() && artifact.sourceRef == request.prefix + "/" + item.Key()
    && artifact.kind == (if item.OfFragment? && item.fragment.kind == "adr" then "authoring_document" else "authoring_fragment")
    && artifact.contract == request.contract && Selects(item, source, artifact.selector)
  }

  lemma TableTells(items: seq<Item>, mint: nat -> Option<string>)
    requires EstablishAll(items, mint).troubles == [] && DistinctBy(KeyOf, items)
    ensures Tells(items, mint, EstablishAll(items, mint).table)
  {
    forall j: nat | j < |items|
      ensures items[j].Key() in EstablishAll(items, mint).table
              && Some(EstablishAll(items, mint).table[items[j].Key()]) == IdentityAt(items, j, mint)
    {
      OwnIdentity(items, mint, j);
    }
    TableHasOnlyKeys(items, mint);
  }

  lemma SourceMeans(w: World, request: Request, item: Item, identity: Identity)
    requires EstablishAll(Items(request), w.mint).troubles == [] && DistinctBy(KeyOf, Items(request))
    ensures var table := EstablishAll(Items(request), w.mint).table;
            SourceSays(w, request, item, identity.id, table, SourceOf(item, identity, table, request))
  {
    hide EstablishAll, Items, DistinctBy, Joins, FragmentSays, RelationshipSays, Children, Picked;
    var table := EstablishAll(Items(request), w.mint).table;
    match item
    case OfFragment(f) =>
      ChildrenMean(request.compositions, f.key, table, request.fragments);
      FragmentMeans(f, identity, table, request);
    case OfRelationship(r) =>
      RelationshipMeans(r, identity, table);
      SourceJoins(w, request, r, identity);
  }

  /** The artifact that is made for a part. */
  lemma MadeDetails(w: World, item: Item, table: Table, request: Request, made: Made)
    requires item.Key() in table && Make(w, item, table, request) == Ok(made)
    ensures SealedFor(request, item, made.source, made.artifact)
  {
    hide Render, SourceOf, SelectorFor, ValidUnder, Selects;
    SelectorMeans(item, SourceOf(item, table[item.Key()], table, request));
  }

  /** Everything about one part of a constructed result. */
  ghost predicate PartSays(w: World, request: Request, r: Report, table: Table, i: nat)
    requires i < |Items(request)| && i < |r.entries| && i < |r.fragments| && i < |r.artifacts|
  {
    var item, identity := Items(request)[i], IdentityAt(Items(request), i, w.mint);
    identity.Some?
    && EntrySays(item, identity.value, request, r.entries[i])
    && CandidateSays(item, identity.value, table, request, r.fragments[i])
    && ParsedArtifact(w.encoding, r.artifacts[i]).Some?
    && exists source ::
         SourceSays(w, request, item, identity.value.id, table, source)
         && SealedFor(request, item, source, ParsedArtifact(w.encoding, r.artifacts[i]).value)
         && forall value :: Stands(w.authority, ParsedArtifact(w.encoding, r.artifacts[i]).value, value) <==> value == source
  }

  /**
   * A constructed result, part by part: its entry and its candidate say what the request says, and its
   * artifact stands for one source only, which holds the members of the request and those of the ceremony.
   */
  lemma ConstructedSays(w: World, request: Request, r: Report)
    requires Faithful(w.encoding) && Reports(w, request, r) && r.outcome == Constructed
    ensures |r.entries| == |r.fragments| == |r.artifacts| == |Items(request)|
    ensures exists table :: Tells(Items(request), w.mint, table)
                            && forall i: nat :: i < |Items(request)| ==> PartSays(w, request, r, table, i)
    ensures exists keys :: r.normalized == Model(keys) && multiset(keys) == multiset(Map(KeyOf, Items(request)))
                           && Sorted(StringLe, keys)
  {
    hide *;
    ConstructedBelongsTogether(w, request, r);
    NoTroubles(w, request, r);
    var items := Items(request);
    var table := EstablishAll(items, w.mint).table;
    TableTells(items, w.mint);
    forall i: nat | i < |items| ensures PartSays(w, request, r, table, i) {
      OnePartSays(w, request, r, i);
    }
    NormalizedKeys(w, request, r);
  }

  lemma OnePartSays(w: World, request: Request, r: Report, i: nat)
    requires Faithful(w.encoding) && Reports(w, request, r) && r.outcome == Constructed
    requires i < |Items(request)| && i < |r.entries| && i < |r.fragments| && i < |r.artifacts| && Together(w, request, r, i)
    requires EstablishAll(Items(request), w.mint).troubles == [] && DistinctBy(KeyOf, Items(request))
    ensures PartSays(w, request, r, EstablishAll(Items(request), w.mint).table, i)
  {
    hide *;
    var items, table := Items(request), EstablishAll(Items(request), w.mint).table;
    var made := MadeFor(w, request, r, i);
    EntryAndCandidateMean(items[i], IdentityAt(items, i, w.mint).value, table, request);
    SourceMeans(w, request, items[i], IdentityAt(items, i, w.mint).value);
    MadeDetails(w, items[i], table, request, made);
    OneStands(w.authority, made.artifact, made.source);
    TogetherShows(w, request, r, i);
    PartTogether(w, request, r, table, i, made);
  }

  lemma TogetherShows(w: World, request: Request, r: Report, i: nat)
    requires i < |Items(request)| && i < |r.entries| && i < |r.fragments| && i < |r.artifacts| && Together(w, request, r, i)
    ensures var item, identity := Items(request)[i], IdentityAt(Items(request), i, w.mint);
            && identity.Some? && r.entries[i] == EntryOf(item, identity.value, request)
            && r.fragments[i] == CandidateOf(item, identity.value, EstablishAll(Items(request), w.mint).table, request)
  {
    hide Items, IdentityAt, EntryOf, CandidateOf, EstablishAll, ParsedArtifact, Carries;
  }

  lemma PartTogether(w: World, request: Request, r: Report, table: Table, i: nat, made: Made)
    requires i < |Items(request)| && i < |r.entries| && i < |r.fragments| && i < |r.artifacts|
    requires IdentityAt(Items(request), i, w.mint).Some? && ParsedArtifact(w.encoding, r.artifacts[i]) == Some(made.artifact)
    requires var item, identity := Items(request)[i], IdentityAt(Items(request), i, w.mint).value;
             && EntrySays(item, identity, request, r.entries[i]) && CandidateSays(item, identity, table, request, r.fragments[i])
             && SourceSays(w, request, item, identity.id, table, made.source) && SealedFor(request, item, made.source, made.artifact)
    requires forall value :: Stands(w.authority, made.artifact, value) <==> value == made.source
    ensures PartSays(w, request, r, table, i)
  {
    hide Items, IdentityAt, ParsedArtifact, Stands, SourceSays, SealedFor, EntrySays, CandidateSays;
  }

  /** What was made for a part, and that its artifact is the one in the result. */
  lemma MadeFor(w: World, request: Request, r: Report, i: nat) returns (made: Made)
    requires Faithful(w.encoding) && Reports(w, request, r) && r.outcome == Constructed && i < |Items(request)|
    requires i < |r.artifacts| && i < |r.entries| && i < |r.fragments| && Together(w, request, r, i)
    requires EstablishAll(Items(request), w.mint).troubles == [] && DistinctBy(KeyOf, Items(request))
    ensures var table, item := EstablishAll(Items(request), w.mint).table, Items(request)[i];
            && item.Key() in table && IdentityAt(Items(request), i, w.mint) == Some(table[item.Key()])
            && Make(w, item, table, request) == Ok(made)
            && ParsedArtifact(w.encoding, r.artifacts[i]) == Some(made.artifact)
            && made.source == SourceOf(item, table[item.Key()], table, request) && Stands(w.authority, made.artifact, made.source)
  {
    var items, table := Items(request), EstablishAll(Items(request), w.mint).table;
    WithoutTroubleAllHaveIdentity(items, w.mint);
    GatheredMeans(w, items, table, request);
    var g := GatherAll(w, items, table, request);
    GatheredInResult(w, g, r);
    OwnIdentity(items, w.mint, i);
    hide EstablishAll, Items, IdentityAt, Make, SourceOf, ParsedArtifact, Faithful, Stands, GatherAll, Reports, DistinctBy, Together,
      EntryOf, CandidateOf, ArtifactToJson;
    assert MadeAt(w, items[i], table, request, g, i);
    made := g.made[i].1;
    ArtifactJsonRoundTrip(w.encoding, made.artifact);
    MadeArtifact(w, items[i], table, request, made);
  }

  lemma GatheredInResult(w: World, g: Gathered, r: Report)
    requires ReportsGathered(w, g, r) && r.outcome == Constructed
    ensures g.troubles == [] && r.artifacts == g.artifacts && r.normalized == Model(Sort(StringLe, Map(FragmentKey, g.fragments)))
    ensures r.fragments == g.fragments
  {
    hide IsBasis, CanBeSealed, FirstLoss, Sort;
  }

  lemma NormalizedKeys(w: World, request: Request, r: Report)
    requires Reports(w, request, r) && r.outcome == Constructed && |r.fragments| == |r.entries| == |r.artifacts| == |Items(request)|
    requires forall i: nat :: i < |Items(request)| ==> Together(w, request, r, i)
    ensures exists keys :: r.normalized == Model(keys) && multiset(keys) == multiset(Map(KeyOf, Items(request))) && Sorted(StringLe, keys)
  {
    hide *;
    ResultKeys(w, request, r);
    forall i: nat | i < |r.fragments| ensures r.fragments[i].key == Items(request)[i].Key() {
      KeyOfCandidate(w, request, r, i);
    }
    SameKeyList(r.fragments, Items(request));
    TextOrder();
    SortSorted(StringLe, Map(FragmentKey, r.fragments));
  }

  lemma SameKeyList(fragments: seq<CandidateFragment>, items: seq<Item>)
    requires |fragments| == |items| && forall i: nat :: i < |items| ==> fragments[i].key == items[i].Key()
    ensures Map(FragmentKey, fragments) == Map(KeyOf, items)
  {
  }

  lemma ResultKeys(w: World, request: Request, r: Report)
    requires Reports(w, request, r) && r.outcome == Constructed
    ensures r.normalized == Model(Sort(StringLe, Map(FragmentKey, r.fragments)))
  {
    NoTroubles(w, request, r);
    var items, table := Items(request), EstablishAll(Items(request), w.mint).table;
    WithoutTroubleAllHaveIdentity(items, w.mint);
    hide GatherAll, EstablishAll, Items, Sort, ReportsGathered;
    GatheredInResult(w, GatherAll(w, items, table, request), r);
  }

  lemma KeyOfCandidate(w: World, request: Request, r: Report, i: nat)
    requires i < |Items(request)| && i < |r.entries| && i < |r.fragments| && i < |r.artifacts| && Together(w, request, r, i)
    ensures r.fragments[i].key == Items(request)[i].Key()
  {
    hide Carries, IdentityAt, EstablishAll, EntryOf, ParsedArtifact, Resolve;
  }

  lemma TextOrder()
    ensures Preorder(StringLe)
  {
    forall x, y ensures StringLe(x, y) || StringLe(y, x) {
      StringLeTotal(x, y);
    }
    forall x, y, z | StringLe(x, y) && StringLe(y, z) ensures StringLe(x, z) {
      StringLeTransitive(x, y, z);
    }
  }
}
