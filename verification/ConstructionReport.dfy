/**
 * The report of every construction, successful or not: what each part gave, in order, and what the report
 * makes of it; and the members of an artifact in its JSON form.
 */
module ConstructionReport {
  import opened Prelude
  import opened Ordering
  import opened Grouping
  import opened SchemaCatalog
  import opened Renderer
  import opened Sealing
  import opened SourceBasis
  import opened Base64
  import opened Base64Laws
  import opened Construction
  import opened ConstructionRun
  import opened ConstructionLaws
  import opened ConstructionSources

  /* ---------- artifacts in JSON form ---------- */

  /** The characters of the text are these bytes. */
  ghost predicate Octets(text: string, bytes: seq<Byte>) {
    |text| == |bytes| && forall i :: 0 <= i < |text| ==> text[i] as int == bytes[i] as int
  }

  ghost predicate BytesShown(encoding: Encoding, content: string, value: Option<Json>) {
    exists text, bytes :: value == Some(Str(text)) && Octets(text, bytes) && Encoded(encoding.toBytes(content), bytes)
  }

  /** The members of an artifact. */
  ghost predicate JsonShows(encoding: Encoding, artifact: Artifact, value: Json) {
    value.Obj?
    && value.fields.Keys == {"request_key", "source_ref", "artifact_kind", "source_schema", "serialization_profile", "content_digest",
                             "bytes", "source_contract"}
    && value.Get("request_key") == Some(Str(artifact.requestKey)) && value.Get("source_ref") == Some(Str(artifact.sourceRef))
    && value.Get("artifact_kind") == Some(Str(artifact.kind)) && value.Get("source_contract") == Some(artifact.contract)
    && value.Get("serialization_profile") == Some(Str(artifact.profile)) && value.Get("content_digest") == Some(Str(artifact.digest))
    && SchemaShows(artifact.selector, value.Get("source_schema")) && BytesShown(encoding, artifact.text, value.Get("bytes"))
  }

  ghost predicate SchemaShows(selector: Selector, value: Option<Json>) {
    value.Some? && value.value.Obj? && value.value.fields.Keys == {"canonical_resource_key", "json_pointer"}
    && value.value.Get("canonical_resource_key") == Some(Str(selector.resource))
    && value.value.Get("json_pointer") == Some(Str(selector.pointer))
  }

  lemma JsonMeans(encoding: Encoding, artifact: Artifact)
    ensures JsonShows(encoding, artifact, ArtifactToJson(encoding, artifact))
  {
    var encoded := Encode(encoding.toBytes(artifact.text));
    EncodeExactly(encoding.toBytes(artifact.text), encoded);
    hide Encode, Encoded;
    assert Octets(Characters(encoded), encoded);
    hide Octets, Characters;
    assert BytesShown(encoding, artifact.text, Some(Str(Characters(encoded))));
    hide BytesShown;
  }

  /** The text of a member, or the empty one. */
  ghost predicate TextOf(value: Option<Json>, text: string) {
    value == Some(Str(text)) || (text == "" && !exists t :: value == Some(Str(t)))
  }

  ghost predicate BytesRead(encoding: Encoding, value: Option<Json>, content: string) {
    exists text, bytes, pieces ::
      value == Some(Str(text)) && Octets(text, bytes) && ReadByGroups(bytes, pieces) && encoding.toText(Flat(pieces)) == Some(content)
  }

  /** What an artifact is read from: a selector that is an object, bytes that are a text, and everything else with defaults. */
  ghost predicate JsonReads(encoding: Encoding, value: Json, artifact: Artifact) {
    (exists schema :: value.Get("source_schema") == Some(Obj(schema))
                      && TextOf(Obj(schema).Get("canonical_resource_key"), artifact.selector.resource)
                      && TextOf(Obj(schema).Get("json_pointer"), artifact.selector.pointer))
    && BytesRead(encoding, value.Get("bytes"), artifact.text)
    && TextOf(value.Get("request_key"), artifact.requestKey) && TextOf(value.Get("source_ref"), artifact.sourceRef)
    && TextOf(value.Get("artifact_kind"), artifact.kind) && TextOf(value.Get("serialization_profile"), artifact.profile)
    && TextOf(value.Get("content_digest"), artifact.digest)
    && artifact.contract == if value.Get("source_contract").Some? then value.Get("source_contract").value else Null
  }

  lemma TextMeans(value: Option<Json>, text: string)
    ensures TextOr(value) == text <==> TextOf(value, text)
  {
  }

  lemma {:induction false} DecodedHasNoZero(bytes: seq<Byte>)
    requires DecodeGroups(bytes).Some?
    ensures forall i :: 0 <= i < |bytes| ==> bytes[i] != 0
    decreases |bytes|
  {
    if bytes != [] {
      DecodedHasNoZero(bytes[4..]);
      forall i | 0 <= i < |bytes| ensures bytes[i] != 0 {
        if i >= 4 {
          assert bytes[i] == bytes[4..][i - 4];
        }
      }
    }
  }

  lemma NumberOfByte(b: Byte)
    ensures (b as int) as Byte == b
  {
    hide *;
  }

  lemma Successor(b: Byte)
    requires b as int < 255
    ensures (b + 1) as int == b as int + 1
  {
    hide *;
    assert b < 0xff;
  }

  lemma {:induction false} ByteOfNumber(n: nat)
    requires n < 256
    ensures (n as Byte) as nat == n
  {
    hide *;
    if n > 0 {
      ByteOfNumber(n - 1);
      var b := (n - 1) as Byte;
      Successor(b);
      NumberOfByte(b + 1);
    }
  }

  lemma ByteAt(text: string, i: nat)
    requires i < |text|
    ensures Bytes(text)[i] == if text[i] as int < 256 then (text[i] as int) as Byte else 0
  {
  }

  lemma OctetBytes(text: string, bytes: seq<Byte>)
    requires Octets(text, bytes)
    ensures Bytes(text) == bytes
  {
    assert |Bytes(text)| == |bytes|;
    forall i | 0 <= i < |bytes| ensures Bytes(text)[i] == bytes[i] {
      ByteAt(text, i);
      NumberOfByte(bytes[i]);
      hide Bytes;
    }
  }

  lemma BytesMean(text: string, bytes: seq<Byte>)
    ensures Octets(text, bytes) ==> Bytes(text) == bytes
    ensures DecodeGroups(Bytes(text)).Some? ==> Octets(text, Bytes(text))
  {
    if Octets(text, bytes) {
      OctetBytes(text, bytes);
    }
    if DecodeGroups(Bytes(text)).Some? {
      var all := Bytes(text);
      assert |all| == |text|;
      DecodedHasNoZero(all);
      forall i | 0 <= i < |text| ensures text[i] as int == all[i] as int {
        hide DecodeGroups, Bytes;
        ByteAt(text, i);
        if text[i] as int < 256 {
          ByteOfNumber(text[i] as int);
        }
      }
    }
  }

  lemma BytesReadMeans(encoding: Encoding, text: string, content: string)
    ensures BytesRead(encoding, Some(Str(text)), content) <==>
              DecodeGroups(Bytes(text)).Some? && encoding.toText(DecodeGroups(Bytes(text)).value) == Some(content)
  {
    hide Octets, Bytes, DecodeGroups, ReadByGroups, Flat;
    if DecodeGroups(Bytes(text)).Some? {
      ByGroupsExactly(Bytes(text), DecodeGroups(Bytes(text)).value);
      BytesMean(text, Bytes(text));
    }
    if BytesRead(encoding, Some(Str(text)), content) {
      var bytes, pieces :| Octets(text, bytes) && ReadByGroups(bytes, pieces) && encoding.toText(Flat(pieces)) == Some(content);
      BytesMean(text, bytes);
      ByGroupsExactly(bytes, Flat(pieces));
    }
  }

  /** Reading an artifact, exactly. */
  lemma ReadsExactly(encoding: Encoding, value: Json, artifact: Artifact)
    ensures ParsedArtifact(encoding, value) == Some(artifact) <==> JsonReads(encoding, value, artifact)
  {
    TextMeans(value.Get("request_key"), artifact.requestKey);
    TextMeans(value.Get("source_ref"), artifact.sourceRef);
    TextMeans(value.Get("artifact_kind"), artifact.kind);
    TextMeans(value.Get("serialization_profile"), artifact.profile);
    TextMeans(value.Get("content_digest"), artifact.digest);
    if value.Get("source_schema").Some? && value.Get("source_schema").value.Obj? {
      var schema := value.Get("source_schema").value;
      TextMeans(schema.Get("canonical_resource_key"), artifact.selector.resource);
      TextMeans(schema.Get("json_pointer"), artifact.selector.pointer);
      assert schema == Obj(schema.fields);
    }
    if value.Get("bytes").Some? && value.Get("bytes").value.Str? {
      BytesReadMeans(encoding, value.Get("bytes").value.text, artifact.text);
    } else {
      NoBytes(encoding, value.Get("bytes"), artifact.text);
    }
    hide TextOr, TextOf, BytesRead, DecodeGroups, Bytes;
  }

  lemma NoBytes(encoding: Encoding, value: Option<Json>, content: string)
    requires !(value.Some? && value.value.Str?)
    ensures !BytesRead(encoding, value, content)
  {
  }

  /* ---------- identities ---------- */

  /** One trouble for every part without an identity, in order. */
  ghost predicate Unestablished(items: seq<Item>, mint: nat -> Option<string>, n: nat, troubles: seq<Trouble>)
    requires n <= |items|
  {
    if n == 0 then troubles == []
    else if IdentityAt(items, n - 1, mint).Some? then Unestablished(items, mint, n - 1, troubles)
    else
      troubles != [] && troubles[|troubles| - 1] == IdentityUnavailable(items[n - 1].Key())
      && Unestablished(items, mint, n - 1, troubles[..|troubles| - 1])
  }

  lemma StageStep(items: seq<Item>, n: nat, mint: nat -> Option<string>)
    requires 0 < n <= |items|
    ensures var before, after := EstablishAll(items[..n - 1], mint), EstablishAll(items[..n], mint);
            match IdentityAt(items, n - 1, mint)
            case None => after.table == before.table && after.troubles == before.troubles + [IdentityUnavailable(items[n - 1].Key())]
            case Some(identity) => after.table == before.table[items[n - 1].Key() := identity] && after.troubles == before.troubles
  {
    StageMeans(items[..n - 1], mint);
    EstablishStep(items, n - 1, mint);
    hide EstablishAll, Asks;
  }

  lemma {:induction false} TroublesSay(items: seq<Item>, n: nat, mint: nat -> Option<string>)
    requires n <= |items|
    ensures Unestablished(items, mint, n, EstablishAll(items[..n], mint).troubles)
  {
    assert EstablishAll(items[..0], mint).troubles == [];
    hide EstablishAll, IdentityAt, Item.Key;
    if n > 0 {
      TroublesSay(items, n - 1, mint);
      StageStep(items, n, mint);
      var before, after := EstablishAll(items[..n - 1], mint).troubles, EstablishAll(items[..n], mint).troubles;
      assert IdentityAt(items, n - 1, mint).None? ==> after[..|after| - 1] == before;
    }
  }

  /** The table after some parts: for every key the identity of the last of them with that key. */
  ghost predicate TableAfter(items: seq<Item>, n: nat, mint: nat -> Option<string>, table: Table)
    requires n <= |items|
  {
    (forall j: nat :: j < n && (forall k :: j < k < n ==> items[k].Key() != items[j].Key()) ==>
       items[j].Key() in table && Some(table[items[j].Key()]) == IdentityAt(items, j, mint))
    && forall key :: key in table ==> exists j: nat :: j < n && items[j].Key() == key
  }

  lemma TableStep(items: seq<Item>, n: nat, mint: nat -> Option<string>, before: Table, identity: Identity)
    requires 0 < n <= |items| && TableAfter(items, n - 1, mint, before) && IdentityAt(items, n - 1, mint) == Some(identity)
    ensures TableAfter(items, n, mint, before[items[n - 1].Key() := identity])
  {
    hide IdentityAt, Item.Key;
    var table := before[items[n - 1].Key() := identity];
    forall j: nat | j < n && (forall k :: j < k < n ==> items[k].Key() != items[j].Key())
      ensures items[j].Key() in table && Some(table[items[j].Key()]) == IdentityAt(items, j, mint)
    {
      if j < n - 1 {
        assert items[n - 1].Key() != items[j].Key();
      }
    }
  }

  lemma {:induction false} TablesSay(items: seq<Item>, n: nat, mint: nat -> Option<string>)
    requires n <= |items| && EstablishAll(items[..n], mint).troubles == []
    ensures TableAfter(items, n, mint, EstablishAll(items[..n], mint).table)
  {
    hide EstablishAll, IdentityAt;
    if n > 0 {
      StageStep(items, n, mint);
      TablesSay(items, n - 1, mint);
      TableStep(items, n, mint, EstablishAll(items[..n - 1], mint).table, IdentityAt(items, n - 1, mint).value);
      hide TableAfter;
    } else {
      NothingEstablished(mint);
      assert items[..0] == [];
    }
  }

  /* ---------- one part ---------- */

  /** The end of a relationship: the identity of the part it names, or the empty id. */
  ghost predicate EndsAt(endpoint: Endpoint, table: Table, value: Option<Json>) {
    match endpoint
    case Some(target) => value == Some(Str(if target in table then table[target].id else ""))
    case None => value == Some(Str(""))
  }

  /** What the source of a part says, whatever becomes of the request. */
  ghost predicate PartSource(request: Request, item: Item, id: string, table: Table, source: Json) {
    match item
    case OfFragment(f) =>
      exists children ::
        Picked(request.compositions, Composes(f.key, table, request.fragments), ChildShows(table, request.fragments), children)
        && FragmentSays(f, id, children, source)
    case OfRelationship(r) =>
      RelationshipSays(r, id, source) && EndsAt(r.source, table, source.Get("from_entity_id"))
      && EndsAt(r.target, table, source.Get("to_entity_id"))
  }

  lemma PartSourceMeans(request: Request, item: Item, identity: Identity, table: Table)
    ensures PartSource(request, item, identity.id, table, SourceOf(item, identity, table, request))
  {
    hide FragmentSays, RelationshipSays, Children, Picked;
    match item
    case OfFragment(f) =>
      ChildrenMean(request.compositions, f.key, table, request.fragments);
      FragmentMeans(f, identity, table, request);
    case OfRelationship(r) =>
      RelationshipMeans(r, identity, table);
  }

  /** The part was made: its source rendered and sealed, accepted again and interpreted. */
  ghost predicate WasMade(w: World, request: Request, item: Item, table: Table, made: Made) {
    item.Key() in table && PartSource(request, item, table[item.Key()].id, table, made.source)
    && SealedFor(request, item, made.source, made.artifact) && Stands(w.authority, made.artifact, made.source)
    && w.interpret(made.artifact, made.source) == Some(made.fields)
  }

  /** The source cannot be written: it has no key or no rendering under its schema. */
  ghost predicate Unwritten(w: World, item: Item, selector: Selector, source: Json) {
    item.Key() == "" || Render(w.authority.catalog, selector, source, w.authority.fuel).Err?
  }

  /** The source is written, but does not pass its schema or cannot be interpreted. */
  ghost predicate Uninterpreted(w: World, request: Request, item: Item, selector: Selector, source: Json) {
    !ValidUnder(w.authority, selector, source)
    || exists artifact :: SealedFor(request, item, source, artifact) && Stands(w.authority, artifact, source)
                          && w.interpret(artifact, source).None?
  }

  /** The part could not be made, for this reason. */
  ghost predicate WasNotMade(w: World, request: Request, item: Item, table: Table, trouble: Trouble) {
    item.Key() in table
    && exists source, selector :: PartSource(request, item, table[item.Key()].id, table, source) && Selects(item, source, selector)
         && if Unwritten(w, item, selector, source) then trouble == SourceUnavailable(item.Key())
            else trouble == InterpretationUnavailable(item.Key()) && Uninterpreted(w, request, item, selector, source)
  }

  ghost predicate Gave(w: World, request: Request, item: Item, table: Table, result: Result<Made, Trouble>) {
    match result
    case Ok(made) => WasMade(w, request, item, table, made)
    case Err(trouble) => WasNotMade(w, request, item, table, trouble)
  }

  lemma SealedStands(w: World, request: Request, item: Item, selector: Selector, source: Json)
    requires Render(w.authority.catalog, selector, source, w.authority.fuel).Ok? && ValidUnder(w.authority, selector, source)
    ensures Stands(w.authority, Sealed(w.authority, item.Key(), RefFor(request, item.Key()), item.Kind(), selector, request.contract, source), source)
  {
    hide Render, ValidUnder;
    SealedStandsForItsSource(w.authority, item.Key(), RefFor(request, item.Key()), item.Kind(), selector, request.contract, source, source);
  }

  lemma MakeSays(w: World, request: Request, item: Item, table: Table)
    requires item.Key() in table
    ensures Gave(w, request, item, table, Make(w, item, table, request))
  {
    hide Render, SourceOf, SelectorFor, ValidUnder, PartSource, Stands, Selects;
    var source := SourceOf(item, table[item.Key()], table, request);
    var selector := SelectorFor(item, source);
    PartSourceMeans(request, item, table[item.Key()], table);
    SelectorMeans(item, source);
    if !Unwritten(w, item, selector, source) {
      var artifact := Sealed(w.authority, item.Key(), RefFor(request, item.Key()), item.Kind(), selector, request.contract, source);
      assert SealedFor(request, item, source, artifact);
      if ValidUnder(w.authority, selector, source) {
        SealedStands(w, request, item, selector, source);
      }
      hide SealedFor, Sealed;
    }
  }

  /* ---------- the lists ---------- */

  type Results = seq<Result<Made, Trouble>>

  ghost predicate AllGave(w: World, request: Request, items: seq<Item>, table: Table, results: Results) {
    |results| == |items| && forall i :: 0 <= i < |items| ==> Gave(w, request, items[i], table, results[i])
  }

  /** The lists of a report: one entry, candidate and artifact for every part that was made, one trouble for any other. */
  ghost predicate ListsSay(
      w: World, request: Request, items: seq<Item>, table: Table, results: Results, entries: seq<MapEntry>,
      fragments: seq<CandidateFragment>, artifacts: seq<Json>, troubles: seq<Trouble>)
    requires |results| == |items|
    decreases |items|
  {
    if items == [] then entries == [] && fragments == [] && artifacts == [] && troubles == []
    else
      var n := |items| - 1;
      match results[n]
      case Err(trouble) =>
        troubles != [] && troubles[|troubles| - 1] == trouble
        && ListsSay(w, request, items[..n], table, results[..n], entries, fragments, artifacts, troubles[..|troubles| - 1])
      case Ok(made) =>
        && entries != [] && fragments != [] && artifacts != []
        && LastSays(w, request, items[n], table, made, entries[|entries| - 1], fragments[|fragments| - 1], artifacts[|artifacts| - 1])
        && ListsSay(w, request, items[..n], table, results[..n], entries[..|entries| - 1], fragments[..|fragments| - 1],
             artifacts[..|artifacts| - 1], troubles)
  }

  ghost predicate LastSays(
      w: World, request: Request, item: Item, table: Table, made: Made, entry: MapEntry, fragment: CandidateFragment, artifact: Json) {
    item.Key() in table && EntrySays(item, table[item.Key()], request, entry)
    && CandidateSays(item, table[item.Key()], table, request, fragment) && JsonShows(w.encoding, made.artifact, artifact)
  }

  ghost function ResultsOf(w: World, items: seq<Item>, table: Table, request: Request): (results: Results)
    requires AllKnown(items, table)
    ensures |results| == |items| && forall i :: 0 <= i < |items| ==> results[i] == Make(w, items[i], table, request)
  {
    seq(|items|, i requires 0 <= i < |items| => Make(w, items[i], table, request))
  }

  lemma {:induction false} GatheredSays(w: World, items: seq<Item>, table: Table, request: Request)
    requires AllKnown(items, table)
    ensures var g := GatherAll(w, items, table, request);
            ListsSay(w, request, items, table, ResultsOf(w, items, table, request), g.entries, g.fragments, g.artifacts, g.troubles)
  {
    hide Make, LastSays;
    if items != [] {
      var n := |items| - 1;
      assert items[..n + 1] == items;
      ConstructionRun.GatherStep(w, items, n, table, request);
      GatheredSays(w, items[..n], table, request);
      var results := ResultsOf(w, items, table, request);
      assert results[..n] == ResultsOf(w, items[..n], table, request);
      var g, h := GatherAll(w, items[..n], table, request), GatherAll(w, items, table, request);
      hide GatherAll, ResultsOf;
      match Make(w, items[n], table, request) {
        case Err(trouble) =>
          assert h.troubles[..|h.troubles| - 1] == g.troubles;
        case Ok(made) =>
          assert h.entries[..|h.entries| - 1] == g.entries && h.fragments[..|h.fragments| - 1] == g.fragments;
          assert h.artifacts[..|h.artifacts| - 1] == g.artifacts;
          LastIsSaid(w, request, items[n], table, made);
      }
    }
  }

  lemma LastIsSaid(w: World, request: Request, item: Item, table: Table, made: Made)
    requires item.Key() in table
    ensures LastSays(w, request, item, table, made, EntryOf(item, table[item.Key()], request),
              CandidateOf(item, table[item.Key()], table, request), ArtifactToJson(w.encoding, made.artifact))
  {
    EntryAndCandidateMean(item, table[item.Key()], table, request);
    JsonMeans(w.encoding, made.artifact);
    hide EntryOf, CandidateOf, ArtifactToJson, EntrySays, CandidateSays, JsonShows;
  }

  /* ---------- the report ---------- */

  /** The artifacts that were made, in order. */
  ghost function Artifacts(results: Results): seq<Artifact>
    requires forall i :: 0 <= i < |results| ==> results[i].Ok?
  {
    seq(|results|, i requires 0 <= i < |results| => results[i].value.artifact)
  }

  /** The first part whose interpretation lost a field of its source. */
  ghost predicate LostFirst(items: seq<Item>, results: Results, i: nat)
    requires |results| == |items| && forall i :: 0 <= i < |results| ==> results[i].Ok?
  {
    i < |items| && LostContext(items[i], results[i].value) && forall j :: 0 <= j < i ==> !LostContext(items[j], results[j].value)
  }

  /** The artifacts cannot be bound together: there is none, two parts have one key, or their descriptor has no text. */
  ghost predicate Unbound(w: World, items: seq<Item>, results: Results)
    requires |results| == |items| && forall i :: 0 <= i < |results| ==> results[i].Ok?
  {
    items == [] || !DistinctBy(KeyOf, items) || w.authority.canonical(Descriptor(Sort(BeforeByRef, Artifacts(results)))).None?
  }

  /** What the report makes of parts that were all made. */
  ghost predicate WholeSays(
      w: World, items: seq<Item>, results: Results, entries: seq<MapEntry>, fragments: seq<CandidateFragment>, artifacts: seq<Json>,
      r: Report)
    requires |results| == |items| && forall i :: 0 <= i < |results| ==> results[i].Ok?
  {
    if Unbound(w, items, results) then r == Report(Unavailable, [BasisUnavailable], entries, fragments, artifacts, None, NoModel)
    else
      r.basis.Some? && IsBasis(w.authority, Artifacts(results), r.basis.value)
      && if exists i: nat :: LostFirst(items, results, i) then
           exists i: nat :: LostFirst(items, results, i)
             && r == Report(Rejected, [SemanticMismatch(items[i].Key())], [], [], artifacts, r.basis, MismatchModel)
         else
           exists keys ::
             r == Report(Constructed, [], entries, fragments, artifacts, r.basis, Model(keys))
             && multiset(keys) == multiset(Map(KeyOf, items)) && Sorted(StringLe, keys)
  }

  /** What the report makes of what the parts gave. */
  ghost predicate GivenSays(
      w: World, items: seq<Item>, results: Results, entries: seq<MapEntry>, fragments: seq<CandidateFragment>, artifacts: seq<Json>,
      troubles: seq<Trouble>, r: Report)
    requires |results| == |items|
  {
    if exists i :: 0 <= i < |results| && results[i].Err? then
      r == Report(Unavailable, troubles, entries, fragments, artifacts, None, NoModel)
    else WholeSays(w, items, results, entries, fragments, artifacts, r)
  }

  ghost predicate PartsSay(w: World, request: Request, r: Report) {
    var items := Items(request);
    exists table, results, entries, fragments, artifacts, troubles ::
      TableAfter(items, |items|, w.mint, table) && AllGave(w, request, items, table, results)
      && ListsSay(w, request, items, table, results, entries, fragments, artifacts, troubles)
      && GivenSays(w, items, results, entries, fragments, artifacts, troubles, r)
  }

  /**
   * The report of a construction, for every request: without an identity for some part it holds nothing but
   * the troubles; else every part gave a candidate or a trouble, the lists hold these in order, and the
   * report is unavailable, rejected or constructed accordingly.
   */
  ghost predicate ReportSays(w: World, request: Request, r: Report) {
    var items := Items(request);
    if exists i: nat :: i < |items| && IdentityAt(items, i, w.mint).None? then
      Unestablished(items, w.mint, |items|, r.troubles) && r == Report(Unavailable, r.troubles, [], [], [], None, NoModel)
    else PartsSay(w, request, r)
  }

  lemma {:induction false} TroublesOfResults(w: World, items: seq<Item>, table: Table, request: Request)
    requires AllKnown(items, table)
    ensures GatherAll(w, items, table, request).troubles != [] <==>
              exists i :: 0 <= i < |items| && ResultsOf(w, items, table, request)[i].Err?
  {
    GatheredMeans(w, items, table, request);
    hide GatherAll, Make, MadeOf;
    var results := ResultsOf(w, items, table, request);
    if item :| item in items && Make(w, item, table, request).Err? {
      var i :| 0 <= i < |items| && items[i] == item;
      assert results[i].Err?;
    }
    if i :| 0 <= i < |items| && results[i].Err? {
      assert items[i] in items;
    }
  }

  lemma MadeShows(w: World, items: seq<Item>, table: Table, request: Request, g: Gathered, i: nat)
    requires MadeOf(w, items, table, request, g) && i < |items|
    ensures |g.made| == |items| == |g.fragments| && items[i].Key() in table
    ensures Make(w, items[i], table, request) == Ok(g.made[i].1) && g.made[i].0 == items[i] && g.fragments[i].key == items[i].Key()
  {
    hide Make, EntryOf, ArtifactToJson, Resolve;
    assert MadeAt(w, items[i], table, request, g, i);
  }

  lemma MadeIsResults(w: World, items: seq<Item>, table: Table, request: Request)
    requires AllKnown(items, table) && GatherAll(w, items, table, request).troubles == []
    ensures var g, results := GatherAll(w, items, table, request), ResultsOf(w, items, table, request);
            && |g.made| == |items| && |g.fragments| == |items|
            && (forall i :: 0 <= i < |items| ==> results[i].Ok? && g.made[i] == (items[i], results[i].value))
            && forall i :: 0 <= i < |items| ==> g.fragments[i].key == items[i].Key()
  {
    hide *;
    GatheredMeans(w, items, table, request);
    var g := GatherAll(w, items, table, request);
    MadeLengths(w, items, table, request, g);
    forall i: nat | i < |items|
      ensures Make(w, items[i], table, request) == Ok(g.made[i].1) && g.made[i].0 == items[i] && g.fragments[i].key == items[i].Key()
    {
      MadeShows(w, items, table, request, g, i);
    }
  }

  lemma SameArtifacts(items: seq<Item>, results: Results, made: seq<(Item, Made)>)
    requires |results| == |items| == |made| && forall i :: 0 <= i < |results| ==> results[i].Ok?
    requires forall i :: 0 <= i < |items| ==> made[i] == (items[i], results[i].value)
    ensures Map(ArtifactOf, made) == Artifacts(results)
  {
  }

  lemma SealedOrUnbound(w: World, items: seq<Item>, results: Results, artifacts: seq<Artifact>)
    requires |results| == |items| && (forall i :: 0 <= i < |results| ==> results[i].Ok?) && artifacts == Artifacts(results)
    requires (forall x :: x in artifacts ==> Intact(w.authority, x)) && (artifacts == [] <==> items == [])
    requires DistinctBy(RefOf, artifacts) <==> DistinctBy(KeyOf, items)
    ensures CanBeSealed(w.authority, artifacts) <==> !Unbound(w, items, results)
  {
    hide Artifacts, Intact, Sort, Descriptor, DistinctBy;
  }

  lemma BoundMeans(w: World, items: seq<Item>, table: Table, request: Request)
    requires AllKnown(items, table) && GatherAll(w, items, table, request).troubles == []
    requires var results := ResultsOf(w, items, table, request);
             (forall i :: 0 <= i < |results| ==> results[i].Ok?) && Map(ArtifactOf, GatherAll(w, items, table, request).made) == Artifacts(results)
    ensures CanBeSealed(w.authority, Map(ArtifactOf, GatherAll(w, items, table, request).made))
            <==> !Unbound(w, items, ResultsOf(w, items, table, request))
  {
    hide *;
    var g := GatherAll(w, items, table, request);
    GatheredMeans(w, items, table, request);
    ArtifactsOfItems(w, items, table, request, g);
    SealedOrUnbound(w, items, ResultsOf(w, items, table, request), Map(ArtifactOf, g.made));
  }

  lemma {:induction false} LossMeans(items: seq<Item>, results: Results, made: seq<(Item, Made)>)
    requires |results| == |items| == |made| && forall i :: 0 <= i < |results| ==> results[i].Ok?
    requires forall i :: 0 <= i < |items| ==> made[i] == (items[i], results[i].value)
    ensures FirstLoss(made).None? <==> !exists i: nat :: LostFirst(items, results, i)
    ensures FirstLoss(made).Some? ==> exists i: nat :: LostFirst(items, results, i) && FirstLoss(made) == Some(items[i].Key())
  {
    FirstLossMeans(made);
    hide FirstLoss, LostContext;
    forall i: nat
      ensures LostFirst(items, results, i) <==>
                i < |made| && LostContext(made[i].0, made[i].1) && forall j :: 0 <= j < i ==> !LostContext(made[j].0, made[j].1)
    {
    }
    hide LostFirst;
  }

  lemma WholeIsSaid(w: World, request: Request, items: seq<Item>, table: Table, r: Report)
    requires AllKnown(items, table) && GatherAll(w, items, table, request).troubles == []
    requires ReportsGathered(w, GatherAll(w, items, table, request), r)
    requires forall i :: 0 <= i < |items| ==> ResultsOf(w, items, table, request)[i].Ok?
    ensures var g := GatherAll(w, items, table, request);
            WholeSays(w, items, ResultsOf(w, items, table, request), g.entries, g.fragments, g.artifacts, r)
  {
    var g, results := GatherAll(w, items, table, request), ResultsOf(w, items, table, request);
    MadeIsResults(w, items, table, request);
    SameArtifacts(items, results, g.made);
    BoundMeans(w, items, table, request);
    LossMeans(items, results, g.made);
    SameKeyList(g.fragments, items);
    TextOrder();
    SortSorted(StringLe, Map(FragmentKey, g.fragments));
    hide GatherAll, ResultsOf, LostFirst, Unbound, FirstLoss, IsBasis, CanBeSealed, Sort, Artifacts, Preorder, Sorted, KeyOf, Map, LostContext;
  }

  /** Every report of a construction says so. */
  lemma ReportsSay(w: World, request: Request, r: Report)
    requires Reports(w, request, r)
    ensures ReportSays(w, request, r)
  {
    var items := Items(request);
    StageMeans(items, w.mint);
    if EstablishAll(items, w.mint).troubles == [] {
      hide Reports, EstablishAll, Items, IdentityAt, PartsSay;
      EstablishedSays(w, request, r);
    } else {
      hide EstablishAll, Items, IdentityAt, Unestablished, ReportsGathered, GatherAll;
      TroublesSay(items, |items|, w.mint);
      assert items[..|items|] == items;
    }
  }

  lemma EstablishedSays(w: World, request: Request, r: Report)
    requires Reports(w, request, r) && EstablishAll(Items(request), w.mint).troubles == []
    ensures PartsSay(w, request, r)
  {
    hide Reports, EstablishAll, Items, IdentityAt, ReportsGathered, GatherAll, TableAfter, PartsSay;
    var items := Items(request);
    WithoutTroubleAllHaveIdentity(items, w.mint);
    assert items[..|items|] == items;
    TablesSay(items, |items|, w.mint);
    ReportsAreGathered(w, request, items, EstablishAll(items, w.mint).table, r);
    PartsAreSaid(w, request, items, EstablishAll(items, w.mint).table, r);
  }

  lemma ReportsAreGathered(w: World, request: Request, items: seq<Item>, table: Table, r: Report)
    requires items == Items(request) && EstablishAll(items, w.mint).troubles == [] && table == EstablishAll(items, w.mint).table
    requires Reports(w, request, r) && AllKnown(items, table)
    ensures ReportsGathered(w, GatherAll(w, items, table, request), r)
  {
    hide EstablishAll, Items, GatherAll, ReportsGathered;
  }

  lemma PartsAreSaid(w: World, request: Request, items: seq<Item>, table: Table, r: Report)
    requires items == Items(request) && TableAfter(items, |items|, w.mint, table) && AllKnown(items, table)
    requires ReportsGathered(w, GatherAll(w, items, table, request), r)
    ensures PartsSay(w, request, r)
  {
    hide *;
    var g, results := GatherAll(w, items, table, request), ResultsOf(w, items, table, request);
    GatheredSays(w, items, table, request);
    AllGiven(w, request, items, table);
    GivenIsSaid(w, request, items, table, r);
    PartsTogether(w, request, table, results, g, r);
  }

  lemma AllGiven(w: World, request: Request, items: seq<Item>, table: Table)
    requires AllKnown(items, table)
    ensures AllGave(w, request, items, table, ResultsOf(w, items, table, request))
  {
    hide Make, Gave;
    forall i | 0 <= i < |items| ensures Gave(w, request, items[i], table, Make(w, items[i], table, request)) {
      MakeSays(w, request, items[i], table);
    }
  }

  lemma GivenIsSaid(w: World, request: Request, items: seq<Item>, table: Table, r: Report)
    requires AllKnown(items, table) && ReportsGathered(w, GatherAll(w, items, table, request), r)
    ensures var g := GatherAll(w, items, table, request);
            GivenSays(w, items, ResultsOf(w, items, table, request), g.entries, g.fragments, g.artifacts, g.troubles, r)
  {
    TroublesOfResults(w, items, table, request);
    hide GatherAll, ResultsOf, WholeSays, FirstLoss, IsBasis, CanBeSealed, Sort, Map;
    if GatherAll(w, items, table, request).troubles == [] {
      WholeIsSaid(w, request, items, table, r);
    }
  }

  lemma PartsTogether(w: World, request: Request, table: Table, results: Results, g: Gathered, r: Report)
    requires TableAfter(Items(request), |Items(request)|, w.mint, table) && AllGave(w, request, Items(request), table, results)
    requires |results| == |Items(request)|
    requires ListsSay(w, request, Items(request), table, results, g.entries, g.fragments, g.artifacts, g.troubles)
    requires GivenSays(w, Items(request), results, g.entries, g.fragments, g.artifacts, g.troubles, r)
    ensures PartsSay(w, request, r)
  {
    hide Items, TableAfter, AllGave, ListsSay, GivenSays;
  }
}
