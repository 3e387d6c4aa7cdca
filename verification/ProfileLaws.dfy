/**
 * What the validation of a registry reports: each finding said of the entities and the ledger alone, the order
 * of the findings, and what a profile makes of them.
 */
module ProfileLaws {
  import opened Prelude
  import opened Ordering
  import opened Grouping
  import opened ContractProfiles

  /* ---------- what stands in an entity ---------- */

  function Within(raw: Json, outer: string, key: string): Option<Json> {
    match raw.Get(outer)
    case Some(inner) => inner.Get(key)
    case None => None
  }

  /** The text of a value, or the empty text where there is none. */
  ghost predicate TextIs(value: Option<Json>, text: string) {
    value == Some(Str(text)) || (text == "" && !exists t :: value == Some(Str(t)))
  }

  ghost predicate TypeIs(raw: Json, entityType: string) {
    TextIs(raw.Get("entity_type"), entityType)
  }

  ghost predicate ValueAt(raw: Json, path: Path, value: Json) {
    match path
    case OfField(_, key) => key in {"id", "entity_type", "name", "summary"} && raw.Get(key) == Some(value)
    case OfSource(_, key) => key in {"source_ref", "artifact_path"} && Within(raw, "canonical_source", key) == Some(value)
    case OfStatus(_) => Within(raw, "completeness", "status") == Some(value)
    case OfMetadata(_, key) => Within(raw, "metadata", key) == Some(value)
    case _ => false
  }

  /** The fields that may be sentinels outside greenfield. */
  ghost predicate SentinelCapable(raw: Json, path: Path) {
    match path
    case OfField(_, key) => key == "summary"
    case OfMetadata(_, key) =>
      (TypeIs(raw, "invariant") && key == "statement") || (TypeIs(raw, "component") && key == "module_path")
    case _ => false
  }

  /** What is found in one entity. */
  ghost predicate FoundIn(rules: Rules, raw: Json, f: Finding) {
    match f
    case Broken(OfEntity(_)) => !raw.Obj?
    case Broken(OfMetadata(_, key)) =>
      raw.Obj? && (exists t :: TypeIs(raw, t) && key in rules.required(t)) && Within(raw, "metadata", key).None?
    case Broken(_) => false
    case Status(path, status) => raw.Obj? && path.OfStatus? && TextIs(Within(raw, "completeness", "status"), status)
    case Sentinel(path, enabled) =>
      (exists value :: ValueAt(raw, path, value) && rules.isSentinel(value)) && (enabled <==> SentinelCapable(raw, path))
  }

  /* ---------- what stands in the ledger ---------- */

  /** The entity gives the field this value. */
  ghost predicate Offers(raw: Json, field: string, value: Json) {
    exists id :: TextIs(raw.Get("id"), id) && OffersAs(raw, id, field, value)
  }

  ghost predicate OffersAs(raw: Json, id: string, field: string, value: Json) {
    || (field == "entity:" + id + ".summary" && raw.Get("summary") == Some(value))
    || (TypeIs(raw, "invariant") && field == "entity:" + id + ".metadata.statement" && Within(raw, "metadata", "statement") == Some(value))
    || (TypeIs(raw, "component") && field == "entity:" + id + ".metadata.module_path"
        && Within(raw, "metadata", "module_path") == Some(value))
  }

  /** The last entity that gives the field a value gives it this one. */
  ghost predicate Holds(entities: seq<Json>, field: string, value: Json) {
    exists i :: 0 <= i < |entities| && Offers(entities[i], field, value)
                && forall j, other :: i < j < |entities| ==> !Offers(entities[j], field, other)
  }

  ghost predicate AboutField(entry: Json, field: string) {
    entry.Obj? && TextIs(entry.Get("field_ref"), field)
  }

  ghost predicate Repeated(ledger: seq<Json>, i: nat, field: string) {
    exists j :: 0 <= j < i && j < |ledger| && AboutField(ledger[j], field)
  }

  ghost predicate Disagrees(rules: Rules, entry: Json, value: Json) {
    if rules.isSentinel(value) then TextIs(entry.Get("state"), "pending_approval") || TextIs(entry.Get("state"), "approved")
    else TextIs(entry.Get("state"), "sentinel")
  }

  ghost predicate Unresolved(registry: Registry, i: nat, field: string) {
    Repeated(registry.ledger, i, field) || !exists value :: Holds(registry.entities, field, value)
  }

  ghost predicate Contradicted(rules: Rules, registry: Registry, i: nat, field: string)
    requires i < |registry.ledger|
  {
    !Repeated(registry.ledger, i, field)
    && exists value :: Holds(registry.entities, field, value) && Disagrees(rules, registry.ledger[i], value)
  }

  ghost predicate FoundInLedger(rules: Rules, registry: Registry, f: Finding) {
    match f
    case Broken(OfLedgerField(i)) =>
      i < |registry.ledger| && exists field :: AboutField(registry.ledger[i], field) && Unresolved(registry, i, field)
    case Broken(OfLedgerState(i)) =>
      i < |registry.ledger| && exists field :: AboutField(registry.ledger[i], field) && Contradicted(rules, registry, i, field)
    case _ => false
  }

  ghost predicate Found(rules: Rules, registry: Registry, f: Finding) {
    if f.path.OfLedgerField? || f.path.OfLedgerState? then FoundInLedger(rules, registry, f)
    else f.path.i < |registry.entities| && FoundIn(rules, registry.entities[f.path.i], f)
  }

  /* ---------- lookups ---------- */

  lemma TextMeans(fields: Fields, key: string, text: string)
    ensures TextAt(fields, key) == text <==> TextIs(Obj(fields).Get(key), text)
  {
  }

  lemma WithinMeans(fields: Fields, outer: string, key: string)
    ensures match ObjectAt(fields, outer)
            case Some(inner) => Within(Obj(fields), outer, key) == if key in inner then Some(inner[key]) else None
            case None => Within(Obj(fields), outer, key) == None
  {
  }

  lemma StatusMeans(fields: Fields, text: string)
    ensures StatusOf(fields) == text <==> TextIs(Within(Obj(fields), "completeness", "status"), text)
  {
    WithinMeans(fields, "completeness", "status");
  }

  /* ---------- the findings of one entity ---------- */

  lemma {:induction false} MissingMeans(fields: Fields, i: nat, keys: seq<string>, f: Finding)
    ensures f in Missing(fields, i, keys) <==>
              f.Broken? && f.path.OfMetadata? && f.path.i == i && f.path.key in keys
              && Within(Obj(fields), "metadata", f.path.key).None?
  {
    if keys != [] {
      var last := keys[|keys| - 1];
      MissingMeans(fields, i, keys[..|keys| - 1], f);
      WithinMeans(fields, "metadata", last);
      assert keys == keys[..|keys| - 1] + [last];
    }
  }

  lemma {:induction false} MetadataMeans(
      rules: Rules, fields: Fields, metadata: Fields, i: nat, keys: seq<string>, f: Finding)
    ensures f in MetadataFindings(rules, fields, metadata, i, keys) <==>
              f.Sentinel? && f.path.OfMetadata? && f.path.i == i && f.path.key in keys
              && f.path.key in metadata && rules.isSentinel(metadata[f.path.key])
              && f.enabled == Enabled(TextAt(fields, "entity_type"), f.path.key)
  {
    if keys != [] {
      MetadataMeans(rules, fields, metadata, i, keys[..|keys| - 1], f);
      assert keys == keys[..|keys| - 1] + [keys[|keys| - 1]];
    }
  }

  ghost predicate Marked(rules: Rules, value: Option<Json>) {
    value.Some? && rules.isSentinel(value.value)
  }

  lemma CheckSays(rules: Rules, path: Path, fields: Fields, key: string, enabled: bool, f: Finding)
    ensures f in Check(rules, path, fields, key, enabled) <==>
              f == Sentinel(path, enabled) && Marked(rules, Obj(fields).Get(key))
  {
  }

  /** A lookup below a missing object finds nothing. */
  lemma BelowSays(fields: Fields, outer: string, key: string)
    ensures var inner := match ObjectAt(fields, outer) case Some(m) => m case None => map[];
            Obj(inner).Get(key) == Within(Obj(fields), outer, key)
  {
  }

  lemma FixedMeans(rules: Rules, fields: Fields, i: nat, f: Finding)
    ensures f in FixedFindings(rules, fields, i) <==>
              || (f == Sentinel(OfField(i, "id"), false) && Marked(rules, Obj(fields).Get("id")))
              || (f == Sentinel(OfField(i, "entity_type"), false) && Marked(rules, Obj(fields).Get("entity_type")))
              || (f == Sentinel(OfField(i, "name"), false) && Marked(rules, Obj(fields).Get("name")))
              || (f == Sentinel(OfSource(i, "source_ref"), false) && Marked(rules, Within(Obj(fields), "canonical_source", "source_ref")))
              || (f == Sentinel(OfSource(i, "artifact_path"), false)
                  && Marked(rules, Within(Obj(fields), "canonical_source", "artifact_path")))
              || (f == Sentinel(OfStatus(i), false) && Marked(rules, Within(Obj(fields), "completeness", "status")))
              || (f == Sentinel(OfField(i, "summary"), true) && Marked(rules, Obj(fields).Get("summary")))
  {
    var source := match ObjectAt(fields, "canonical_source") case Some(s) => s case None => map[];
    var completeness := match ObjectAt(fields, "completeness") case Some(c) => c case None => map[];
    CheckSays(rules, OfField(i, "id"), fields, "id", false, f);
    CheckSays(rules, OfField(i, "entity_type"), fields, "entity_type", false, f);
    CheckSays(rules, OfField(i, "name"), fields, "name", false, f);
    CheckSays(rules, OfSource(i, "source_ref"), source, "source_ref", false, f);
    CheckSays(rules, OfSource(i, "artifact_path"), source, "artifact_path", false, f);
    CheckSays(rules, OfStatus(i), completeness, "status", false, f);
    CheckSays(rules, OfField(i, "summary"), fields, "summary", true, f);
    BelowSays(fields, "canonical_source", "source_ref");
    BelowSays(fields, "canonical_source", "artifact_path");
    BelowSays(fields, "completeness", "status");
    hide Check, ObjectAt, Within, Marked;
  }

  lemma EnabledMeans(fields: Fields, i: nat, key: string)
    ensures Enabled(TextAt(fields, "entity_type"), key) <==> SentinelCapable(Obj(fields), OfMetadata(i, key))
  {
    TextMeans(fields, "entity_type", "invariant");
    TextMeans(fields, "entity_type", "component");
    hide TextAt, TextIs;
  }

  ghost predicate Sentineled(rules: Rules, raw: Json, path: Path) {
    exists value :: ValueAt(raw, path, value) && rules.isSentinel(value)
  }

  lemma FixedSays(rules: Rules, fields: Fields, i: nat, f: Finding)
    ensures f in FixedFindings(rules, fields, i) <==>
              f.Sentinel? && !f.path.OfMetadata? && f.path.i == i && Sentineled(rules, Obj(fields), f.path)
              && (f.enabled <==> SentinelCapable(Obj(fields), f.path))
  {
    FixedMeans(rules, fields, i, f);
    hide FixedFindings;
    if f.Sentinel? && (f.path.OfField? || f.path.OfSource? || f.path.OfStatus?) {
      FixedPathSays(rules, Obj(fields), f.path);
    }
    hide Within, Marked;
  }

  lemma FixedPathSays(rules: Rules, raw: Json, path: Path)
    requires path.OfField? || path.OfSource? || path.OfStatus?
    ensures Sentineled(rules, raw, path) <==>
              match path
              case OfField(_, key) => key in {"id", "entity_type", "name", "summary"} && Marked(rules, raw.Get(key))
              case OfSource(_, key) => key in {"source_ref", "artifact_path"} && Marked(rules, Within(raw, "canonical_source", key))
              case OfStatus(_) => Marked(rules, Within(raw, "completeness", "status"))
  {
    hide Within;
  }

  lemma MetadataSays(rules: Rules, fields: Fields, i: nat, f: Finding)
    ensures var metadata := match ObjectAt(fields, "metadata") case Some(m) => m case None => map[];
            f in MetadataFindings(rules, fields, metadata, i, SortedKeys(metadata.Keys)) <==>
              f.Sentinel? && f.path.OfMetadata? && f.path.i == i && Sentineled(rules, Obj(fields), f.path)
              && (f.enabled <==> SentinelCapable(Obj(fields), f.path))
  {
    var metadata := match ObjectAt(fields, "metadata") case Some(m) => m case None => map[];
    MetadataMeans(rules, fields, metadata, i, SortedKeys(metadata.Keys), f);
    if f.Sentinel? && f.path.OfMetadata? {
      EnabledMeans(fields, f.path.i, f.path.key);
      BelowSays(fields, "metadata", f.path.key);
    }
    hide MetadataFindings, Enabled, TextAt, TypeIs;
  }

  lemma RequiredMeans(rules: Rules, fields: Fields, key: string)
    ensures key in rules.required(TextAt(fields, "entity_type")) <==> exists t :: TypeIs(Obj(fields), t) && key in rules.required(t)
  {
    forall t ensures TextAt(fields, "entity_type") == t <==> TypeIs(Obj(fields), t) {
      TextMeans(fields, "entity_type", t);
    }
    hide TextAt, TypeIs;
  }

  lemma EntityMeans(rules: Rules, raw: Json, i: nat, f: Finding)
    ensures f in EntityFindings(rules, raw, i) <==> f.path.i == i && FoundIn(rules, raw, f)
  {
    if raw.Obj? {
      var fields := raw.fields;
      var keys := rules.required(TextAt(fields, "entity_type"));
      MissingMeans(fields, i, keys, f);
      if f.Broken? && f.path.OfMetadata? {
        RequiredMeans(rules, fields, f.path.key);
      }
      if f.Status? {
        StatusMeans(fields, f.status);
      }
      FixedSays(rules, fields, i, f);
      MetadataSays(rules, fields, i, f);
    }
    hide Missing, StatusOf, FixedFindings, MetadataFindings, SortedKeys, TextAt, TextIs, Within, SentinelCapable, TypeIs, ObjectAt;
    hide ValueAt;
  }

  lemma {:induction false} RegistryMeans(rules: Rules, entities: seq<Json>, f: Finding)
    ensures f in RegistryFindings(rules, entities) <==> f.path.i < |entities| && FoundIn(rules, entities[f.path.i], f)
  {
    hide FoundIn, EntityFindings;
    if entities != [] {
      var n := |entities| - 1;
      RegistryMeans(rules, entities[..n], f);
      EntityMeans(rules, entities[n], n, f);
    }
  }

  /* ---------- the ledger ---------- */

  ghost predicate Maps(values: Fields, field: string, value: Json) {
    field in values && values[field] == value
  }

  ghost predicate MetadataGives(id: string, entityType: string, metadata: Fields, field: string, value: Json) {
    exists key :: Enabled(entityType, key) && Maps(metadata, key, value) && field == "entity:" + id + ".metadata." + key
  }

  /** The text behind the prefix, if the field starts with it. */
  function Behind(prefix: string, field: string): (r: Option<string>)
    ensures forall key :: r == Some(key) <==> field == prefix + key
  {
    if |prefix| <= |field| && prefix == field[..|prefix|] then
      assert field == prefix + field[|prefix|..];
      assert forall key :: (prefix + key)[|prefix|..] == key;
      Some(field[|prefix|..])
    else
      assert forall key :: (prefix + key)[..|prefix|] == prefix;
      None
  }

  ghost predicate GivenBy(entityType: string, metadata: Fields, keys: seq<string>, key: Option<string>) {
    key.Some? && key.value in keys && Enabled(entityType, key.value) && key.value in metadata
  }

  /** Of the keys that went in, only the one that the field ends with matters. */
  lemma {:induction false} MetadataValuesMean(
      values: Fields, id: string, entityType: string, metadata: Fields, keys: seq<string>, field: string, value: Json)
    ensures var key := Behind("entity:" + id + ".metadata.", field);
            Maps(WithMetadataValues(values, id, entityType, metadata, keys), field, value) <==>
              if GivenBy(entityType, metadata, keys, key) then value == metadata[key.value] else Maps(values, field, value)
  {
    if keys != [] {
      var last := keys[|keys| - 1];
      MetadataValuesMean(values, id, entityType, metadata, keys[..|keys| - 1], field, value);
      assert keys == keys[..|keys| - 1] + [last];
      var key := Behind("entity:" + id + ".metadata.", field);
      assert key == Some(last) <==> field == "entity:" + id + ".metadata." + last;
    }
    hide Enabled, Behind;
  }

  lemma MetadataValuesSay(values: Fields, id: string, entityType: string, metadata: Fields, field: string, value: Json)
    ensures Maps(WithMetadataValues(values, id, entityType, metadata, SortedKeys(metadata.Keys)), field, value) <==>
              MetadataGives(id, entityType, metadata, field, value)
              || ((forall v :: !MetadataGives(id, entityType, metadata, field, v)) && Maps(values, field, value))
  {
    var key := Behind("entity:" + id + ".metadata.", field);
    MetadataValuesMean(values, id, entityType, metadata, SortedKeys(metadata.Keys), field, value);
    if GivenBy(entityType, metadata, SortedKeys(metadata.Keys), key) {
      assert MetadataGives(id, entityType, metadata, field, metadata[key.value]);
    }
    hide WithMetadataValues, Enabled, Behind;
  }

  function MetadataOf(fields: Fields): Fields {
    match ObjectAt(fields, "metadata") case Some(m) => m case None => map[]
  }

  lemma GivesMeans(fields: Fields, id: string, field: string, value: Json)
    ensures MetadataGives(id, TextAt(fields, "entity_type"), MetadataOf(fields), field, value) <==>
              || (TypeIs(Obj(fields), "invariant") && field == "entity:" + id + ".metadata.statement"
                  && Within(Obj(fields), "metadata", "statement") == Some(value))
              || (TypeIs(Obj(fields), "component") && field == "entity:" + id + ".metadata.module_path"
                  && Within(Obj(fields), "metadata", "module_path") == Some(value))
  {
    var metadata, kind := MetadataOf(fields), TextAt(fields, "entity_type");
    TextMeans(fields, "entity_type", "invariant");
    TextMeans(fields, "entity_type", "component");
    BelowSays(fields, "metadata", "statement");
    BelowSays(fields, "metadata", "module_path");
    hide TextAt, TextIs, Within, ObjectAt;
    var prefix := "entity:" + id + ".metadata.";
    assert prefix + "statement" == "entity:" + id + ".metadata.statement";
    assert prefix + "module_path" == "entity:" + id + ".metadata.module_path";
    hide MetadataOf;
    if kind == "invariant" && Maps(metadata, "statement", value) && field == prefix + "statement" {
      assert Enabled(kind, "statement");
    }
    if kind == "component" && Maps(metadata, "module_path", value) && field == prefix + "module_path" {
      assert Enabled(kind, "module_path");
    }
  }

  lemma OffersMeans(fields: Fields, id: string, field: string, value: Json)
    requires id == TextAt(fields, "id")
    ensures Offers(Obj(fields), field, value) <==>
              || (field == "entity:" + id + ".summary" && Maps(fields, "summary", value))
              || MetadataGives(id, TextAt(fields, "entity_type"), MetadataOf(fields), field, value)
  {
    TextMeans(fields, "id", id);
    if Offers(Obj(fields), field, value) {
      var other :| TextIs(Obj(fields).Get("id"), other) && OffersAs(Obj(fields), other, field, value);
      TextMeans(fields, "id", other);
    }
    GivesMeans(fields, id, field, value);
    hide TextAt, TextIs, MetadataOf, MetadataGives, TypeIs, Within;
  }

  /** A field of the metadata is not the summary. */
  lemma SummaryIsNoMetadata(id: string, entityType: string, metadata: Fields, value: Json)
    ensures !MetadataGives(id, entityType, metadata, "entity:" + id + ".summary", value)
  {
    forall key ensures "entity:" + id + ".summary" != "entity:" + id + ".metadata." + key {
      var stem := "entity:" + id + ".";
      assert "entity:" + id + ".summary" == stem + "summary";
      assert "entity:" + id + ".metadata." + key == stem + ("metadata." + key);
      assert (stem + "summary")[|stem|] == 's' && (stem + ("metadata." + key))[|stem|] == 'm';
    }
  }

  ghost predicate OffersNothing(raw: Json, field: string) {
    forall value :: !Offers(raw, field, value)
  }

  lemma ValuesStep(init: seq<Json>, raw: Json, field: string, value: Json)
    ensures Maps(FieldValues(init + [raw]), field, value) <==>
              Offers(raw, field, value) || (OffersNothing(raw, field) && Maps(FieldValues(init), field, value))
  {
    var entities := init + [raw];
    assert entities[..|entities| - 1] == init && entities[|entities| - 1] == raw;
    if raw.Obj? {
      ObjectStep(init, raw.fields, field, value);
    } else {
      assert FieldValues(entities) == FieldValues(init);
      hide FieldValues;
    }
  }

  function Summarized(before: Fields, fields: Fields, id: string): Fields {
    if "summary" in fields then before["entity:" + id + ".summary" := fields["summary"]] else before
  }

  lemma ObjectUnfolds(init: seq<Json>, fields: Fields)
    ensures var id, metadata := TextAt(fields, "id"), MetadataOf(fields);
            FieldValues(init + [Obj(fields)])
            == WithMetadataValues(Summarized(FieldValues(init), fields, id), id, TextAt(fields, "entity_type"), metadata, SortedKeys(metadata.Keys))
  {
    var entities := init + [Obj(fields)];
    assert entities[..|entities| - 1] == init && entities[|entities| - 1] == Obj(fields);
    hide TextAt;
  }

  lemma SummarizedMeans(before: Fields, fields: Fields, id: string, field: string, value: Json)
    ensures Maps(Summarized(before, fields, id), field, value) <==>
              if field == "entity:" + id + ".summary" && "summary" in fields then Maps(fields, "summary", value)
              else Maps(before, field, value)
  {
  }

  lemma ObjectStep(init: seq<Json>, fields: Fields, field: string, value: Json)
    ensures Maps(FieldValues(init + [Obj(fields)]), field, value) <==>
              Offers(Obj(fields), field, value) || (OffersNothing(Obj(fields), field) && Maps(FieldValues(init), field, value))
  {
    hide FieldValues, TextAt, MetadataOf, WithMetadataValues, MetadataGives, Offers, Summarized, ObjectAt;
    var id, kind, metadata := TextAt(fields, "id"), TextAt(fields, "entity_type"), MetadataOf(fields);
    var summary := "entity:" + id + ".summary";
    ObjectUnfolds(init, fields);
    MetadataValuesSay(Summarized(FieldValues(init), fields, id), id, kind, metadata, field, value);
    SummarizedMeans(FieldValues(init), fields, id, field, value);
    forall v
      ensures Offers(Obj(fields), field, v) <==>
                (field == summary && Maps(fields, "summary", v)) || MetadataGives(id, kind, metadata, field, v)
    {
      OffersMeans(fields, id, field, v);
    }
    if field == summary {
      forall v ensures !MetadataGives(id, kind, metadata, field, v) {
        SummaryIsNoMetadata(id, kind, metadata, v);
      }
      if "summary" in fields {
        assert Maps(fields, "summary", fields["summary"]);
        assert Offers(Obj(fields), field, fields["summary"]);
      }
    }
  }

  lemma {:induction false} ValuesMean(entities: seq<Json>, field: string, value: Json)
    ensures Maps(FieldValues(entities), field, value) <==> Holds(entities, field, value)
  {
    hide Offers;
    if entities != [] {
      var n := |entities| - 1;
      assert entities == entities[..n] + [entities[n]];
      ValuesMean(entities[..n], field, value);
      ValuesStep(entities[..n], entities[n], field, value);
      hide FieldValues;
      assert Holds(entities, field, value) <==>
          Offers(entities[n], field, value) || (OffersNothing(entities[n], field) && Holds(entities[..n], field, value)) by {
        HoldsStep(entities, field, value);
      }
    }
  }

  lemma HoldsStep(entities: seq<Json>, field: string, value: Json)
    requires entities != []
    ensures var n := |entities| - 1;
            Holds(entities, field, value) <==>
              Offers(entities[n], field, value) || (OffersNothing(entities[n], field) && Holds(entities[..n], field, value))
  {
    hide Offers;
    var n := |entities| - 1;
    if OffersNothing(entities[n], field) && Holds(entities[..n], field, value) {
      var i :| 0 <= i < n && Offers(entities[..n][i], field, value)
               && forall j, other :: i < j < n ==> !Offers(entities[..n][j], field, other);
      assert Offers(entities[i], field, value);
      forall j, other | i < j <= n ensures !Offers(entities[j], field, other) {
        assert j < n ==> entities[..n][j] == entities[j];
      }
    }
    if Holds(entities, field, value) && !Offers(entities[n], field, value) {
      var i :| 0 <= i <= n && Offers(entities[i], field, value)
               && forall j, other :: i < j <= n ==> !Offers(entities[j], field, other);
      assert Offers(entities[..n][i], field, value);
    }
  }

  lemma {:induction false} SeenMeans(rules: Rules, values: Fields, entries: seq<Json>, field: string)
    ensures field in LedgerFindings(rules, values, entries).seen <==> Repeated(entries, |entries|, field)
  {
    if entries != [] {
      var n := |entries| - 1;
      SeenMeans(rules, values, entries[..n], field);
      SeenStep(rules, values, LedgerFindings(rules, values, entries[..n]), entries[n], n, field);
      hide LedgerStep, AboutField;
      assert Repeated(entries, n + 1, field) <==> Repeated(entries[..n], n, field) || AboutField(entries[n], field) by {
        if Repeated(entries[..n], n, field) {
          var j :| 0 <= j < n && AboutField(entries[..n][j], field);
          assert entries[..n][j] == entries[j];
        }
        if j :| 0 <= j < n && AboutField(entries[j], field) {
          assert entries[..n][j] == entries[j];
        }
      }
    }
  }

  lemma SeenStep(rules: Rules, values: Fields, l: Ledger, raw: Json, i: nat, field: string)
    ensures field in LedgerStep(rules, values, l, raw, i).seen <==> field in l.seen || AboutField(raw, field)
  {
    if raw.Obj? {
      TextMeans(raw.fields, "field_ref", field);
    }
    hide TextAt, TextIs, Contradicts;
  }

  /** What one entry of the ledger adds. */
  function Added(rules: Rules, values: Fields, seen: set<string>, raw: Json, i: nat): seq<Finding> {
    if !raw.Obj? then [] else
    var field := TextAt(raw.fields, "field_ref");
    if field in seen || field !in values then [Broken(OfLedgerField(i))]
    else if Contradicts(TextAt(raw.fields, "state"), rules.isSentinel(values[field])) then [Broken(OfLedgerState(i))] else []
  }

  lemma AddedStep(rules: Rules, values: Fields, l: Ledger, raw: Json, i: nat)
    ensures LedgerStep(rules, values, l, raw, i).findings == l.findings + Added(rules, values, l.seen, raw, i)
  {
    hide TextAt, Contradicts;
  }

  lemma DisagreesMeans(rules: Rules, fields: Fields, value: Json)
    ensures Contradicts(TextAt(fields, "state"), rules.isSentinel(value)) <==> Disagrees(rules, Obj(fields), value)
  {
    TextMeans(fields, "state", "sentinel");
    TextMeans(fields, "state", "pending_approval");
    TextMeans(fields, "state", "approved");
    hide TextAt, TextIs;
  }

  /** An entry is found broken by what the set and the values hold of its field. */
  lemma AddedMeans(rules: Rules, values: Fields, seen: set<string>, raw: Json, i: nat, f: Finding)
    ensures f in Added(rules, values, seen, raw, i) <==>
              exists field :: AboutField(raw, field)
                              && ((f == Broken(OfLedgerField(i)) && (field in seen || field !in values))
                                  || (f == Broken(OfLedgerState(i)) && field !in seen && field in values
                                      && Disagrees(rules, raw, values[field])))
  {
    if raw.Obj? {
      var own := TextAt(raw.fields, "field_ref");
      forall field ensures own == field <==> AboutField(raw, field) {
        TextMeans(raw.fields, "field_ref", field);
      }
      assert AboutField(raw, own);
      if own in values {
        DisagreesMeans(rules, raw.fields, values[own]);
      }
    }
    hide TextAt, AboutField, Contradicts, Disagrees;
  }

  lemma EntryMeans(rules: Rules, registry: Registry, values: Fields, seen: set<string>, i: nat, f: Finding)
    requires i < |registry.ledger|
    requires forall field, value :: Maps(values, field, value) <==> Holds(registry.entities, field, value)
    requires forall field :: field in seen <==> Repeated(registry.ledger, i, field)
    ensures f in Added(rules, values, seen, registry.ledger[i], i) <==> f.path.i == i && FoundInLedger(rules, registry, f)
  {
    var raw := registry.ledger[i];
    AddedMeans(rules, values, seen, raw, i, f);
    hide Added, AboutField, Disagrees, Holds, Repeated;
    forall field
      ensures field in seen || field !in values <==> Unresolved(registry, i, field)
      ensures field !in seen && field in values && Disagrees(rules, raw, values[field]) <==> Contradicted(rules, registry, i, field)
    {
      assert field in values ==> Maps(values, field, values[field]);
    }
    hide Unresolved, Contradicted;
  }

  lemma {:induction false} LedgerMeans(rules: Rules, registry: Registry, values: Fields, n: nat, f: Finding)
    requires n <= |registry.ledger| && forall field, value :: Maps(values, field, value) <==> Holds(registry.entities, field, value)
    ensures f in LedgerFindings(rules, values, registry.ledger[..n]).findings <==> f.path.i < n && FoundInLedger(rules, registry, f)
  {
    hide FoundInLedger, Holds, Maps, LedgerStep, Added;
    if n > 0 {
      var entries := registry.ledger;
      LedgerMeans(rules, registry, values, n - 1, f);
      var l := LedgerFindings(rules, values, entries[..n - 1]);
      assert entries[..n][..n - 1] == entries[..n - 1];
      AddedStep(rules, values, l, entries[n - 1], n - 1);
      forall field ensures field in l.seen <==> Repeated(entries, n - 1, field) {
        SeenMeans(rules, values, entries[..n - 1], field);
        RepeatedBefore(entries, n - 1, field);
      }
      EntryMeans(rules, registry, values, l.seen, n - 1, f);
    }
  }

  lemma RepeatedBefore(entries: seq<Json>, n: nat, field: string)
    requires n <= |entries|
    ensures Repeated(entries[..n], n, field) <==> Repeated(entries, n, field)
  {
    hide AboutField;
    if j :| 0 <= j < n && AboutField(entries[j], field) {
      assert entries[..n][j] == entries[j];
    }
  }

  /** The findings, exactly: everything that stands wrong, unjudged or as a sentinel in the registry and its ledger. */
  lemma FindingsExactly(rules: Rules, registry: Registry, f: Finding)
    ensures f in AllFindings(rules, registry) <==> Found(rules, registry, f)
  {
    var values := FieldValues(registry.entities);
    RegistryMeans(rules, registry.entities, f);
    forall field, value ensures Maps(values, field, value) <==> Holds(registry.entities, field, value) {
      ValuesMean(registry.entities, field, value);
    }
    assert registry.ledger[..|registry.ledger|] == registry.ledger;
    LedgerMeans(rules, registry, values, |registry.ledger|, f);
    hide RegistryFindings, LedgerFindings, FieldValues, Holds, Maps;
    if f.path.i < |registry.entities| && OfLedger(f) {
      NotOfLedger(rules, registry.entities[f.path.i], f);
    }
    hide FoundIn, Unresolved, Contradicted, AboutField;
  }

  lemma NotOfLedger(rules: Rules, raw: Json, f: Finding)
    requires OfLedger(f)
    ensures !FoundIn(rules, raw, f)
  {
  }

  /* ---------- the order ---------- */

  /** Where a finding belongs within its entity. */
  ghost function Stage(f: Finding): nat {
    match f
    case Broken(_) => 0
    case Status(_, _) => 1
    case Sentinel(OfField(_, key), _) => if key == "id" then 2 else if key == "entity_type" then 3 else if key == "name" then 4 else 8
    case Sentinel(OfSource(_, key), _) => if key == "source_ref" then 5 else 6
    case Sentinel(OfStatus(_), _) => 7
    case Sentinel(_, _) => 9
  }

  ghost predicate Listed(keys: seq<string>, key: string, later: string) {
    exists a, b :: 0 <= a < b < |keys| && keys[a] == key && keys[b] == later
  }

  /** Missing keys in the order of the rules, sentinels of the metadata sorted, everything else by its stage. */
  ghost predicate PrecedesIn(rules: Rules, raw: Json, f: Finding, g: Finding) {
    Stage(f) < Stage(g)
    || (f.path.OfMetadata? && g.path.OfMetadata?
        && ((f.Broken? && g.Broken? && exists t :: TypeIs(raw, t) && Listed(rules.required(t), f.path.key, g.path.key))
            || (f.Sentinel? && g.Sentinel? && f.path.key != g.path.key && StringLe(f.path.key, g.path.key))))
  }

  ghost predicate OfLedger(f: Finding) {
    f.path.OfLedgerField? || f.path.OfLedgerState?
  }

  /** Entities before the ledger, entities and entries by position. */
  ghost predicate Precedes(rules: Rules, entities: seq<Json>, f: Finding, g: Finding) {
    if OfLedger(f) != OfLedger(g) then OfLedger(g)
    else f.path.i < g.path.i || (f.path.i == g.path.i && f.path.i < |entities| && PrecedesIn(rules, entities[f.path.i], f, g))
  }

  /** A list in order, its stages within bounds. */
  ghost predicate Staged(rules: Rules, raw: Json, s: seq<Finding>, low: nat, high: nat) {
    (forall a, b :: 0 <= a < b < |s| ==> PrecedesIn(rules, raw, s[a], s[b])) && forall f :: f in s ==> low <= Stage(f) <= high
  }

  lemma StagedJoin(rules: Rules, raw: Json, s: seq<Finding>, low: nat, mid: nat, t: seq<Finding>, above: nat, high: nat)
    requires Staged(rules, raw, s, low, mid) && Staged(rules, raw, t, above, high) && low <= mid < above <= high
    ensures Staged(rules, raw, s + t, low, high)
  {
    hide Stage, Listed, TypeIs;
    forall a, b | 0 <= a < b < |s + t| ensures PrecedesIn(rules, raw, (s + t)[a], (s + t)[b]) {
      if a < |s| <= b {
        assert s[a] in s && t[b - |s|] in t;
      }
    }
  }

  /** Metadata keys in the order in which they are required. */
  ghost predicate AsRequired(s: seq<Finding>, keys: seq<string>) {
    (forall f :: f in s ==> f.Broken? && f.path.OfMetadata? && f.path.key in keys)
    && forall a, b :: 0 <= a < b < |s| ==> s[a] in s && s[b] in s && Listed(keys, s[a].path.key, s[b].path.key)
  }

  lemma {:induction false} MissingStaged(fields: Fields, i: nat, keys: seq<string>)
    ensures AsRequired(Missing(fields, i, keys), keys)
  {
    if keys != [] {
      var n := |keys| - 1;
      MissingStaged(fields, i, keys[..n]);
      var before, all := Missing(fields, i, keys[..n]), Missing(fields, i, keys);
      assert |all| <= |before| + 1 && all[..|before|] == before;
      forall a, b | 0 <= a < b < |all| ensures all[b].path.OfMetadata? && Listed(keys, all[a].path.key, all[b].path.key) {
        assert all[a] == before[a] && before[a] in before;
        if b < |before| {
          assert all[b] == before[b] && before[b] in before;
          ListedLonger(keys, before[a].path.key, before[b].path.key);
        } else {
          var k :| 0 <= k < n && keys[..n][k] == before[a].path.key;
          assert keys[k] == all[a].path.key;
        }
      }
    }
  }

  lemma ListedLonger(keys: seq<string>, key: string, later: string)
    requires keys != [] && Listed(keys[..|keys| - 1], key, later)
    ensures Listed(keys, key, later)
  {
    var init := keys[..|keys| - 1];
    var a, b :| 0 <= a < b < |init| && init[a] == key && init[b] == later;
    assert keys[a] == key && keys[b] == later;
  }

  lemma CheckStaged(rules: Rules, raw: Json, path: Path, fields: Fields, key: string, enabled: bool, stage: nat)
    requires stage == Stage(Sentinel(path, enabled))
    ensures Staged(rules, raw, Check(rules, path, fields, key, enabled), stage, stage)
  {
  }

  lemma FieldsStaged(rules: Rules, raw: Json, fields: Fields, i: nat)
    ensures var ids := Check(rules, OfField(i, "id"), fields, "id", false);
            var types := Check(rules, OfField(i, "entity_type"), fields, "entity_type", false);
            Staged(rules, raw, ids + types + Check(rules, OfField(i, "name"), fields, "name", false), 2, 4)
  {
    var ids := Check(rules, OfField(i, "id"), fields, "id", false);
    var types := Check(rules, OfField(i, "entity_type"), fields, "entity_type", false);
    CheckStaged(rules, raw, OfField(i, "id"), fields, "id", false, 2);
    CheckStaged(rules, raw, OfField(i, "entity_type"), fields, "entity_type", false, 3);
    CheckStaged(rules, raw, OfField(i, "name"), fields, "name", false, 4);
    hide Check, Staged;
    StagedJoin(rules, raw, ids, 2, 2, types, 3, 3);
    StagedJoin(rules, raw, ids + types, 2, 3, Check(rules, OfField(i, "name"), fields, "name", false), 4, 4);
  }

  lemma SourceStaged(rules: Rules, raw: Json, s: seq<Finding>, source: Fields, i: nat)
    requires Staged(rules, raw, s, 2, 4)
    ensures Staged(rules, raw,
              s + Check(rules, OfSource(i, "source_ref"), source, "source_ref", false)
              + Check(rules, OfSource(i, "artifact_path"), source, "artifact_path", false), 2, 6)
  {
    var references := Check(rules, OfSource(i, "source_ref"), source, "source_ref", false);
    CheckStaged(rules, raw, OfSource(i, "source_ref"), source, "source_ref", false, 5);
    CheckStaged(rules, raw, OfSource(i, "artifact_path"), source, "artifact_path", false, 6);
    hide Check, Staged;
    StagedJoin(rules, raw, s, 2, 4, references, 5, 5);
    StagedJoin(rules, raw, s + references, 2, 5, Check(rules, OfSource(i, "artifact_path"), source, "artifact_path", false), 6, 6);
  }

  lemma RestStaged(rules: Rules, raw: Json, s: seq<Finding>, completeness: Fields, fields: Fields, i: nat)
    requires Staged(rules, raw, s, 2, 6)
    ensures Staged(rules, raw,
              s + Check(rules, OfStatus(i), completeness, "status", false) + Check(rules, OfField(i, "summary"), fields, "summary", true),
              2, 8)
  {
    var statuses := Check(rules, OfStatus(i), completeness, "status", false);
    CheckStaged(rules, raw, OfStatus(i), completeness, "status", false, 7);
    CheckStaged(rules, raw, OfField(i, "summary"), fields, "summary", true, 8);
    hide Check, Staged;
    StagedJoin(rules, raw, s, 2, 6, statuses, 7, 7);
    StagedJoin(rules, raw, s + statuses, 2, 7, Check(rules, OfField(i, "summary"), fields, "summary", true), 8, 8);
  }

  lemma FixedStaged(rules: Rules, raw: Json, fields: Fields, i: nat)
    ensures Staged(rules, raw, FixedFindings(rules, fields, i), 2, 8)
  {
    hide Check, Staged, ObjectAt;
    var source := match ObjectAt(fields, "canonical_source") case Some(s) => s case None => map[];
    var completeness := match ObjectAt(fields, "completeness") case Some(c) => c case None => map[];
    var ids := Check(rules, OfField(i, "id"), fields, "id", false);
    var types := Check(rules, OfField(i, "entity_type"), fields, "entity_type", false);
    var first := ids + types + Check(rules, OfField(i, "name"), fields, "name", false);
    FieldsStaged(rules, raw, fields, i);
    SourceStaged(rules, raw, first, source, i);
    var second := first + Check(rules, OfSource(i, "source_ref"), source, "source_ref", false)
                  + Check(rules, OfSource(i, "artifact_path"), source, "artifact_path", false);
    RestStaged(rules, raw, second, completeness, fields, i);
  }

  ghost predicate Increasing(keys: seq<string>) {
    forall a, b :: 0 <= a < b < |keys| ==> keys[a] != keys[b] && StringLe(keys[a], keys[b])
  }

  lemma {:induction false} MetadataStaged(
      rules: Rules, raw: Json, fields: Fields, metadata: Fields, i: nat, keys: seq<string>)
    requires Increasing(keys)
    ensures Staged(rules, raw, MetadataFindings(rules, fields, metadata, i, keys), 9, 9)
    ensures forall f :: f in MetadataFindings(rules, fields, metadata, i, keys) ==> f.path.OfMetadata? && f.path.key in keys
  {
    if keys != [] {
      var n := |keys| - 1;
      MetadataStaged(rules, raw, fields, metadata, i, keys[..n]);
      var before, all := MetadataFindings(rules, fields, metadata, i, keys[..n]), MetadataFindings(rules, fields, metadata, i, keys);
      var added := Check(rules, OfMetadata(i, keys[n]), metadata, keys[n], Enabled(TextAt(fields, "entity_type"), keys[n]));
      assert all == before + added && |added| <= 1;
      forall a, b | 0 <= a < b < |all| ensures PrecedesIn(rules, raw, all[a], all[b]) {
        if b == |before| {
          assert before[a] in before;
          var k :| 0 <= k < n && keys[k] == before[a].path.key;
        }
      }
    }
  }

  lemma MissingInOrder(rules: Rules, fields: Fields, i: nat)
    ensures Staged(rules, Obj(fields), Missing(fields, i, rules.required(TextAt(fields, "entity_type"))), 0, 0)
  {
    var entityType := TextAt(fields, "entity_type");
    MissingStaged(fields, i, rules.required(entityType));
    TextMeans(fields, "entity_type", entityType);
    assert TypeIs(Obj(fields), entityType);
    hide Missing, Listed, TextAt, TypeIs;
  }

  lemma EntityInOrder(rules: Rules, raw: Json, i: nat)
    ensures Staged(rules, raw, EntityFindings(rules, raw, i), 0, 9)
  {
    if raw.Obj? {
      var fields := raw.fields;
      var metadata := match ObjectAt(fields, "metadata") case Some(m) => m case None => map[];
      var keys := SortedKeys(metadata.Keys);
      var missing := Missing(fields, i, rules.required(TextAt(fields, "entity_type")));
      var status := [Status(OfStatus(i), StatusOf(fields))];
      MissingInOrder(rules, fields, i);
      assert Staged(rules, raw, status, 1, 1);
      FixedStaged(rules, raw, fields, i);
      assert Increasing(keys);
      MetadataStaged(rules, raw, fields, metadata, i, keys);
      hide Staged, Missing, StatusOf, FixedFindings, MetadataFindings, SortedKeys, ObjectAt, TextAt, Increasing;
      StagedJoin(rules, raw, missing, 0, 0, status, 1, 1);
      StagedJoin(rules, raw, missing + status, 0, 1, FixedFindings(rules, fields, i), 2, 8);
      StagedJoin(rules, raw, missing + status + FixedFindings(rules, fields, i), 0, 8, MetadataFindings(rules, fields, metadata, i, keys), 9, 9);
    }
  }

  ghost predicate InOrder(rules: Rules, entities: seq<Json>, s: seq<Finding>) {
    forall a, b :: 0 <= a < b < |s| ==> Precedes(rules, entities, s[a], s[b])
  }

  lemma NothingInOrder(rules: Rules, entities: seq<Json>)
    ensures InOrder(rules, entities, [])
  {
  }

  lemma OrderJoin(rules: Rules, entities: seq<Json>, s: seq<Finding>, t: seq<Finding>)
    requires InOrder(rules, entities, s) && InOrder(rules, entities, t)
    requires forall f, g :: f in s && g in t ==> Precedes(rules, entities, f, g)
    ensures InOrder(rules, entities, s + t)
  {
    hide Precedes;
    forall a, b | 0 <= a < b < |s + t| ensures Precedes(rules, entities, (s + t)[a], (s + t)[b]) {
      if a < |s| <= b {
        assert s[a] in s && t[b - |s|] in t;
      }
    }
  }

  lemma OwnFindings(rules: Rules, raw: Json, i: nat)
    ensures forall f :: f in EntityFindings(rules, raw, i) ==> f.path.i == i && !OfLedger(f)
  {
    forall f | f in EntityFindings(rules, raw, i) ensures f.path.i == i && !OfLedger(f) {
      EntityMeans(rules, raw, i, f);
      if OfLedger(f) {
        NotOfLedger(rules, raw, f);
      }
    }
  }

  lemma OneEntityInOrder(rules: Rules, entities: seq<Json>, i: nat)
    requires i < |entities|
    ensures InOrder(rules, entities, EntityFindings(rules, entities[i], i))
  {
    var s := EntityFindings(rules, entities[i], i);
    EntityInOrder(rules, entities[i], i);
    OwnFindings(rules, entities[i], i);
    hide EntityFindings, PrecedesIn, OfLedger;
    forall a, b | 0 <= a < b < |s| ensures Precedes(rules, entities, s[a], s[b]) {
      assert s[a] in s && s[b] in s;
    }
  }

  lemma {:induction false} RegistryInOrder(rules: Rules, entities: seq<Json>, n: nat)
    requires n <= |entities|
    ensures InOrder(rules, entities, RegistryFindings(rules, entities[..n]))
    ensures forall f :: f in RegistryFindings(rules, entities[..n]) ==> f.path.i < n && !OfLedger(f)
  {
    hide InOrder, EntityFindings, OfLedger, PrecedesIn;
    NothingInOrder(rules, entities);
    if n > 0 {
      RegistryInOrder(rules, entities, n - 1);
      assert entities[..n][..n - 1] == entities[..n - 1];
      OneEntityInOrder(rules, entities, n - 1);
      OwnFindings(rules, entities[n - 1], n - 1);
      OrderJoin(rules, entities, RegistryFindings(rules, entities[..n - 1]), EntityFindings(rules, entities[n - 1], n - 1));
    }
  }

  lemma {:induction false} LedgerInOrder(rules: Rules, entities: seq<Json>, values: Fields, ledger: seq<Json>, n: nat)
    requires n <= |ledger|
    ensures InOrder(rules, entities, LedgerFindings(rules, values, ledger[..n]).findings)
    ensures forall f :: f in LedgerFindings(rules, values, ledger[..n]).findings ==> f.path.i < n && OfLedger(f)
  {
    hide InOrder, LedgerStep, PrecedesIn;
    NothingInOrder(rules, entities);
    if n > 0 {
      LedgerInOrder(rules, entities, values, ledger, n - 1);
      assert ledger[..n][..n - 1] == ledger[..n - 1];
      var l := LedgerFindings(rules, values, ledger[..n - 1]);
      AddedStep(rules, values, l, ledger[n - 1], n - 1);
      var added := Added(rules, values, l.seen, ledger[n - 1], n - 1);
      AtMostOne(rules, entities, values, l.seen, ledger[n - 1], n - 1);
      hide Added;
      OrderJoin(rules, entities, l.findings, added);
    }
  }

  lemma AtMostOne(rules: Rules, entities: seq<Json>, values: Fields, seen: set<string>, raw: Json, i: nat)
    ensures var added := Added(rules, values, seen, raw, i);
            InOrder(rules, entities, added) && forall f :: f in added ==> f.path.i == i && OfLedger(f)
  {
    hide TextAt, Contradicts, PrecedesIn;
  }

  /** The findings stand in the order of the entities and of the ledger, and within an entity in the order of the checks. */
  lemma FindingsInOrder(rules: Rules, registry: Registry)
    ensures InOrder(rules, registry.entities, AllFindings(rules, registry))
  {
    var entities, values := registry.entities, FieldValues(registry.entities);
    RegistryInOrder(rules, entities, |entities|);
    LedgerInOrder(rules, entities, values, registry.ledger, |registry.ledger|);
    assert entities[..|entities|] == entities && registry.ledger[..|registry.ledger|] == registry.ledger;
    hide InOrder, RegistryFindings, LedgerFindings, FieldValues, PrecedesIn, OfLedger;
    OrderJoin(rules, entities, RegistryFindings(rules, entities), LedgerFindings(rules, values, registry.ledger).findings);
  }

  /* ---------- what a profile makes of the findings ---------- */

  /** The profile does not let the finding pass. */
  ghost predicate Objects(profile: Profile, f: Finding) {
    match f
    case Broken(_) => true
    case Status(_, status) =>
      status != "complete" && (status != "partial" || profile == Greenfield) && (status != "reference_only" || profile != Brownfield)
    case Sentinel(_, enabled) => profile == Greenfield || !enabled
  }

  ghost predicate Admits(profile: Profile, f: Finding) {
    f.Sentinel? && f.enabled && profile != Greenfield
  }

  lemma {:induction false} KeptMeans(keep: Finding -> bool, f: Finding -> seq<Path>, findings: seq<Finding>)
    requires forall x :: f(x) == if keep(x) then [x.path] else []
    ensures Kept(keep, findings, Gather(f, findings))
  {
    if findings != [] {
      var n := |findings| - 1;
      KeptMeans(keep, f, findings[..n]);
      assert keep(findings[n]) ==> (Gather(f, findings[..n]) + [findings[n].path])[..|Gather(f, findings[..n])|] == Gather(f, findings[..n]);
      assert Gather(f, findings[..n]) + [] == Gather(f, findings[..n]);
    }
  }

  /** The paths of the findings that are kept, each once and in order. */
  ghost predicate Kept(keep: Finding -> bool, findings: seq<Finding>, paths: seq<Path>) {
    if findings == [] then paths == [] else
    var n := |findings| - 1;
    if keep(findings[n]) then paths != [] && paths[|paths| - 1] == findings[n].path && Kept(keep, findings[..n], paths[..|paths| - 1])
    else Kept(keep, findings[..n], paths)
  }

  lemma {:induction false} KeptMembers(keep: Finding -> bool, findings: seq<Finding>, paths: seq<Path>)
    requires Kept(keep, findings, paths)
    ensures forall path :: path in paths <==> exists f :: f in findings && keep(f) && f.path == path
  {
    if findings != [] {
      var n := |findings| - 1;
      assert findings == findings[..n] + [findings[n]];
      if keep(findings[n]) {
        assert paths == paths[..|paths| - 1] + [findings[n].path];
        KeptMembers(keep, findings[..n], paths[..|paths| - 1]);
      } else {
        KeptMembers(keep, findings[..n], paths);
      }
    }
  }

  lemma IssuesAreKept(profile: Profile, findings: seq<Finding>)
    ensures Kept((f: Finding) => Objects(profile, f), findings, Gather(IssuesFor(profile), findings))
  {
    KeptMeans((f: Finding) => Objects(profile, f), IssuesFor(profile), findings);
    hide Kept, Gather;
  }

  lemma HitsAreKept(profile: Profile, findings: seq<Finding>)
    ensures Kept((f: Finding) => Admits(profile, f), findings, Gather(HitsFor(profile), findings))
  {
    KeptMeans((f: Finding) => Admits(profile, f), HitsFor(profile), findings);
    hide Kept, Gather;
  }

  /** Entities that are objects and not complete. */
  ghost function Unfinished(entities: seq<Json>): set<nat> {
    set i: nat | i < |entities| && entities[i].Obj? && !TextIs(Within(entities[i], "completeness", "status"), "complete")
  }

  lemma {:induction false} UnfinishedMeans(entities: seq<Json>)
    ensures Incomplete(entities) == |Unfinished(entities)|
  {
    if entities != [] {
      var n := |entities| - 1;
      var init := entities[..n];
      UnfinishedMeans(init);
      if entities[n].Obj? {
        StatusMeans(entities[n].fields, "complete");
      }
      hide StatusOf, TextIs, Within;
      forall i: nat ensures i in Unfinished(init) <==> i in Unfinished(entities) && i < n {
        assert i < n ==> init[i] == entities[i];
      }
      if n in Unfinished(entities) {
        assert Unfinished(entities) == Unfinished(init) + {n};
      } else {
        assert Unfinished(entities) == Unfinished(init);
      }
    }
  }

  ghost predicate WithinLimit(count: nat, limit: Option<nat>) {
    limit == None || count <= limit.value
  }

  /**
   * The report, exactly: the issues are the findings that the profile objects to, the sentinels counted are
   * those that it admits, the entities counted are the incomplete ones, and it succeeds without issues and
   * within the limits.
   */
  lemma JudgedExactly(profile: Profile, rules: Rules, registry: Registry) returns (findings: seq<Finding>, hits: seq<Path>)
    ensures forall f :: f in findings <==> Found(rules, registry, f)
    ensures InOrder(rules, registry.entities, findings)
    ensures var r := Judged(profile, rules, registry);
            && Kept((f: Finding) => Objects(profile, f), findings, r.issues)
            && Kept((f: Finding) => Admits(profile, f), findings, hits) && r.sentinels == |hits|
            && r.incomplete == |Unfinished(registry.entities)|
            && (r.success <==> r.issues == [] && WithinLimit(r.sentinels, registry.maxSentinels) && WithinLimit(r.incomplete, registry.maxIncomplete))
  {
    findings := AllFindings(rules, registry);
    hits := Gather(HitsFor(profile), findings);
    forall f ensures f in findings <==> Found(rules, registry, f) {
      FindingsExactly(rules, registry, f);
    }
    FindingsInOrder(rules, registry);
    UnfinishedMeans(registry.entities);
    IssuesAreKept(profile, findings);
    HitsAreKept(profile, findings);
    hide AllFindings, Found, InOrder, Unfinished, Incomplete, Kept, Gather, Objects, Admits, IssuesFor, HitsFor;
  }

  /** Which paths are issues. */
  lemma IssuesMean(profile: Profile, rules: Rules, registry: Registry, path: Path)
    ensures path in Judged(profile, rules, registry).issues <==>
              exists f :: Found(rules, registry, f) && Objects(profile, f) && f.path == path
  {
    var findings, hits := JudgedExactly(profile, rules, registry);
    KeptMembers((f: Finding) => Objects(profile, f), findings, Judged(profile, rules, registry).issues);
    hide Judged, Found, Objects, InOrder, Kept, Unfinished, WithinLimit;
  }
}
