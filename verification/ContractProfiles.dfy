/**
 * Validation of an entity registry under a contract profile, and what the profiles have to do with each
 * other.
 */
module ContractProfiles {
  import opened Prelude
  import opened Ordering
  import opened Grouping

  datatype Profile = Greenfield | Migration | Brownfield

  type Fields = map<string, Json>

  datatype Path =
    | OfEntity(i: nat) | OfMetadata(i: nat, key: string) | OfStatus(i: nat) | OfField(i: nat, key: string)
    | OfSource(i: nat, key: string) | OfLedgerField(i: nat) | OfLedgerState(i: nat)

  /** Which values are sentinels, and which metadata an entity type requires, in order. */
  datatype Rules = Rules(isSentinel: Json -> bool, required: string -> seq<string>)

  datatype Registry = Registry(
    entities: seq<Json>, ledger: seq<Json>, maxSentinels: Option<nat>, maxIncomplete: Option<nat>)

  datatype Report = Report(success: bool, issues: seq<Path>, sentinels: nat, incomplete: nat)

  /** What is found in a registry, whatever the profile makes of it. */
  datatype Finding = Broken(path: Path) | Status(path: Path, status: string) | Sentinel(path: Path, enabled: bool)

  function TextAt(fields: Fields, key: string): string {
    if key in fields && fields[key].Str? then fields[key].text else ""
  }

  function ObjectAt(fields: Fields, key: string): Option<Fields> {
    if key in fields && fields[key].Obj? then Some(fields[key].fields) else None
  }

  function StatusOf(fields: Fields): string {
    match ObjectAt(fields, "completeness")
    case Some(c) => TextAt(c, "status")
    case None => ""
  }

  /* ---------- what a profile makes of a finding ---------- */

  predicate AllowsStatus(profile: Profile, status: string) {
    status == "complete"
    || (status == "partial" && profile != Greenfield)
    || (status == "reference_only" && profile == Brownfield)
  }

  function IssuesFor(profile: Profile): Finding -> seq<Path> {
    (f: Finding) =>
      match f
      case Broken(path) => [path]
      case Status(path, status) => if AllowsStatus(profile, status) then [] else [path]
      case Sentinel(path, enabled) => if profile == Greenfield || !enabled then [path] else []
  }

  /** One for every sentinel that the profile admits. */
  function HitsFor(profile: Profile): Finding -> seq<Path> {
    (f: Finding) => if f.Sentinel? && f.enabled && profile != Greenfield then [f.path] else []
  }

  /* ---------- findings ---------- */

  function Missing(fields: Fields, i: nat, keys: seq<string>): seq<Finding> {
    if keys == [] then [] else
    var last := keys[|keys| - 1];
    var metadata := ObjectAt(fields, "metadata");
    Missing(fields, i, keys[..|keys| - 1])
    + if metadata.Some? && last in metadata.value then [] else [Broken(OfMetadata(i, last))]
  }

  function Check(rules: Rules, path: Path, fields: Fields, key: string, enabled: bool): seq<Finding> {
    if key in fields && rules.isSentinel(fields[key]) then [Sentinel(path, enabled)] else []
  }

  predicate Enabled(entityType: string, key: string) {
    (entityType == "invariant" && key == "statement") || (entityType == "component" && key == "module_path")
  }

  function MetadataFindings(rules: Rules, fields: Fields, metadata: Fields, i: nat, keys: seq<string>): seq<Finding> {
    if keys == [] then [] else
    var last := keys[|keys| - 1];
    MetadataFindings(rules, fields, metadata, i, keys[..|keys| - 1])
    + Check(rules, OfMetadata(i, last), metadata, last, Enabled(TextAt(fields, "entity_type"), last))
  }

  /** The findings in the fixed fields of an entity, before its metadata. */
  function FixedFindings(rules: Rules, fields: Fields, i: nat): seq<Finding> {
    var source := match ObjectAt(fields, "canonical_source") case Some(s) => s case None => map[];
    var completeness := match ObjectAt(fields, "completeness") case Some(c) => c case None => map[];
    Check(rules, OfField(i, "id"), fields, "id", false)
    + Check(rules, OfField(i, "entity_type"), fields, "entity_type", false)
    + Check(rules, OfField(i, "name"), fields, "name", false)
    + Check(rules, OfSource(i, "source_ref"), source, "source_ref", false)
    + Check(rules, OfSource(i, "artifact_path"), source, "artifact_path", false)
    + Check(rules, OfStatus(i), completeness, "status", false)
    + Check(rules, OfField(i, "summary"), fields, "summary", true)
  }

  function EntityFindings(rules: Rules, raw: Json, i: nat): seq<Finding> {
    if !raw.Obj? then [Broken(OfEntity(i))] else
    var fields := raw.fields;
    var metadata := match ObjectAt(fields, "metadata") case Some(m) => m case None => map[];
    Missing(fields, i, rules.required(TextAt(fields, "entity_type")))
    + [Status(OfStatus(i), StatusOf(fields))]
    + FixedFindings(rules, fields, i)
    + MetadataFindings(rules, fields, metadata, i, SortedKeys(metadata.Keys))
  }

  function RegistryFindings(rules: Rules, entities: seq<Json>): seq<Finding> {
    if entities == [] then [] else
    var n := |entities| - 1;
    RegistryFindings(rules, entities[..n]) + EntityFindings(rules, entities[n], n)
  }

  /** Entities that are objects and whose status is not `complete`. */
  function Incomplete(entities: seq<Json>): nat {
    if entities == [] then 0 else
    var last := entities[|entities| - 1];
    Incomplete(entities[..|entities| - 1]) + if last.Obj? && StatusOf(last.fields) != "complete" then 1 else 0
  }

  /* ---------- the remediation ledger ---------- */

  function WithMetadataValues(values: Fields, id: string, entityType: string, metadata: Fields, keys: seq<string>): Fields {
    if keys == [] then values else
    var last := keys[|keys| - 1];
    var before := WithMetadataValues(values, id, entityType, metadata, keys[..|keys| - 1]);
    if Enabled(entityType, last) && last in metadata then before["entity:" + id + ".metadata." + last := metadata[last]]
    else before
  }

  /** The values that ledger entries may refer to. */
  function FieldValues(entities: seq<Json>): Fields {
    if entities == [] then map[] else
    var before, raw := FieldValues(entities[..|entities| - 1]), entities[|entities| - 1];
    if !raw.Obj? then before else
    var id := TextAt(raw.fields, "id");
    var summarized :=
      if "summary" in raw.fields then before["entity:" + id + ".summary" := raw.fields["summary"]] else before;
    match ObjectAt(raw.fields, "metadata")
    case None => summarized
    case Some(m) => WithMetadataValues(summarized, id, TextAt(raw.fields, "entity_type"), m, SortedKeys(m.Keys))
  }

  /** The state of an entry contradicts the value it is about. */
  predicate Contradicts(state: string, sentinel: bool) {
    (state == "sentinel" && !sentinel) || (state == "pending_approval" && sentinel) || (state == "approved" && sentinel)
  }

  datatype Ledger = Ledger(seen: set<string>, findings: seq<Finding>)

  function LedgerStep(rules: Rules, values: Fields, l: Ledger, raw: Json, i: nat): Ledger {
    if !raw.Obj? then l else
    var field := TextAt(raw.fields, "field_ref");
    if field in l.seen then l.(findings := l.findings + [Broken(OfLedgerField(i))])
    else
      var seen := l.seen + {field};
      if field !in values then Ledger(seen, l.findings + [Broken(OfLedgerField(i))])
      else if Contradicts(TextAt(raw.fields, "state"), rules.isSentinel(values[field])) then
        Ledger(seen, l.findings + [Broken(OfLedgerState(i))])
      else Ledger(seen, l.findings)
  }

  function LedgerFindings(rules: Rules, values: Fields, entries: seq<Json>): Ledger {
    if entries == [] then Ledger({}, []) else
    var n := |entries| - 1;
    LedgerStep(rules, values, LedgerFindings(rules, values, entries[..n]), entries[n], n)
  }

  function AllFindings(rules: Rules, registry: Registry): seq<Finding> {
    RegistryFindings(rules, registry.entities)
    + LedgerFindings(rules, FieldValues(registry.entities), registry.ledger).findings
  }

  predicate Exceeds(count: nat, limit: Option<nat>) {
    limit.Some? && count > limit.value
  }

  /** The verdict of a profile. */
  function Judged(profile: Profile, rules: Rules, registry: Registry): Report {
    var findings := AllFindings(rules, registry);
    var issues, hits := Gather(IssuesFor(profile), findings), |Gather(HitsFor(profile), findings)|;
    Report(issues == [] && !Exceeds(hits, registry.maxSentinels) && !Exceeds(Incomplete(registry.entities), registry.maxIncomplete),
      issues, hits, Incomplete(registry.entities))
  }

  /* ---------- the validation ---------- */

  /** The issues and sentinel hits of one validation. */
  class Audit {
    const profile: Profile
    const rules: Rules
    var issues: seq<Path>
    var sentinels: nat
    ghost var findings: seq<Finding>

    constructor (profile: Profile, rules: Rules)
      ensures this.profile == profile && this.rules == rules && Valid() && findings == []
    {
      this.profile, this.rules := profile, rules;
      issues, sentinels, findings := [], 0, [];
    }

    ghost predicate Valid()
      reads this
    {
      issues == Gather(IssuesFor(profile), findings) && sentinels == |Gather(HitsFor(profile), findings)|
    }

    method Report(path: Path)
      requires Valid()
      modifies this
      ensures Valid() && findings == old(findings) + [Broken(path)]
    {
      GatherStep(IssuesFor(profile), findings, Broken(path));
      GatherStep(HitsFor(profile), findings, Broken(path));
      issues := issues + [path];
      findings := findings + [Broken(path)];
    }

    method JudgeStatus(path: Path, status: string)
      requires Valid()
      modifies this
      ensures Valid() && findings == old(findings) + [Status(path, status)]
    {
      GatherStep(IssuesFor(profile), findings, Status(path, status));
      GatherStep(HitsFor(profile), findings, Status(path, status));
      if !AllowsStatus(profile, status) {
        issues := issues + [path];
      }
      findings := findings + [Status(path, status)];
    }

    /** A sentinel is an issue where the profile or the field does not admit one, and is counted otherwise. */
    method CheckField(path: Path, fields: Fields, key: string, enabled: bool)
      requires Valid()
      modifies this
      ensures Valid() && findings == old(findings) + Check(rules, path, fields, key, enabled)
    {
      if key !in fields || !rules.isSentinel(fields[key]) {
        return;
      }
      GatherStep(IssuesFor(profile), findings, Sentinel(path, enabled));
      GatherStep(HitsFor(profile), findings, Sentinel(path, enabled));
      if profile == Greenfield || !enabled {
        issues := issues + [path];
      } else {
        sentinels := sentinels + 1;
      }
      findings := findings + [Sentinel(path, enabled)];
    }

    method CheckRequired(fields: Fields, i: nat)
      requires Valid()
      modifies this
      ensures Valid() && findings == old(findings) + Missing(fields, i, rules.required(TextAt(fields, "entity_type")))
    {
      hide Valid;
      var keys := rules.required(TextAt(fields, "entity_type"));
      var metadata := ObjectAt(fields, "metadata");
      for j := 0 to |keys|
        invariant Valid() && findings == old(findings) + Missing(fields, i, keys[..j])
      {
        assert keys[..j + 1][..j] == keys[..j];
        if metadata.None? || keys[j] !in metadata.value {
          Report(OfMetadata(i, keys[j]));
        }
      }
      assert keys[..|keys|] == keys;
    }

    method CheckFixed(fields: Fields, i: nat)
      requires Valid()
      modifies this
      ensures Valid() && findings == old(findings) + FixedFindings(rules, fields, i)
    {
      hide *;
      var source := match ObjectAt(fields, "canonical_source") case Some(s) => s case None => map[];
      var completeness := match ObjectAt(fields, "completeness") case Some(c) => c case None => map[];
      CheckField(OfField(i, "id"), fields, "id", false);
      CheckField(OfField(i, "entity_type"), fields, "entity_type", false);
      CheckField(OfField(i, "name"), fields, "name", false);
      CheckField(OfSource(i, "source_ref"), source, "source_ref", false);
      CheckField(OfSource(i, "artifact_path"), source, "artifact_path", false);
      CheckField(OfStatus(i), completeness, "status", false);
      CheckField(OfField(i, "summary"), fields, "summary", true);
      FixedInTurn(rules, old(findings), fields, source, completeness, i);
    }

    method CheckMetadata(fields: Fields, metadata: Fields, i: nat)
      requires Valid()
      modifies this
      ensures Valid()
      ensures findings == old(findings) + MetadataFindings(rules, fields, metadata, i, SortedKeys(metadata.Keys))
    {
      hide Valid, Check, SortedKeys, MetadataFindings;
      var keys := SortedKeys(metadata.Keys);
      NoMetadata(rules, fields, metadata, i);
      for j := 0 to |keys|
        invariant Valid() && findings == old(findings) + MetadataFindings(rules, fields, metadata, i, keys[..j])
      {
        MetadataStep(rules, fields, metadata, i, keys, j);
        CheckField(OfMetadata(i, keys[j]), metadata, keys[j], Enabled(TextAt(fields, "entity_type"), keys[j]));
      }
      assert keys[..|keys|] == keys;
    }

    method CheckEntity(raw: Json, i: nat)
      requires Valid()
      modifies this
      ensures Valid() && findings == old(findings) + EntityFindings(rules, raw, i)
    {
      hide Valid, Missing, FixedFindings, MetadataFindings, SortedKeys;
      if !raw.Obj? {
        Report(OfEntity(i));
        return;
      }
      var metadata := match ObjectAt(raw.fields, "metadata") case Some(m) => m case None => map[];
      CheckRequired(raw.fields, i);
      JudgeStatus(OfStatus(i), StatusOf(raw.fields));
      CheckFixed(raw.fields, i);
      CheckMetadata(raw.fields, metadata, i);
    }
  }

  /** The checks of the fixed fields, added one after the other. */
  lemma FixedInTurn(rules: Rules, found: seq<Finding>, fields: Fields, source: Fields, completeness: Fields, i: nat)
    requires source == match ObjectAt(fields, "canonical_source") case Some(s) => s case None => map[]
    requires completeness == match ObjectAt(fields, "completeness") case Some(c) => c case None => map[]
    ensures found + Check(rules, OfField(i, "id"), fields, "id", false)
            + Check(rules, OfField(i, "entity_type"), fields, "entity_type", false)
            + Check(rules, OfField(i, "name"), fields, "name", false)
            + Check(rules, OfSource(i, "source_ref"), source, "source_ref", false)
            + Check(rules, OfSource(i, "artifact_path"), source, "artifact_path", false)
            + Check(rules, OfStatus(i), completeness, "status", false)
            + Check(rules, OfField(i, "summary"), fields, "summary", true)
         == found + FixedFindings(rules, fields, i)
  {
    hide Check, ObjectAt;
  }

  lemma NoMetadata(rules: Rules, fields: Fields, metadata: Fields, i: nat)
    ensures MetadataFindings(rules, fields, metadata, i, []) == []
  {
  }

  lemma MetadataStep(rules: Rules, fields: Fields, metadata: Fields, i: nat, keys: seq<string>, j: nat)
    requires j < |keys|
    ensures MetadataFindings(rules, fields, metadata, i, keys[..j + 1])
         == MetadataFindings(rules, fields, metadata, i, keys[..j])
            + Check(rules, OfMetadata(i, keys[j]), metadata, keys[j], Enabled(TextAt(fields, "entity_type"), keys[j]))
  {
    assert keys[..j + 1][..j] == keys[..j];
  }

  method Validate(profile: Profile, rules: Rules, registry: Registry) returns (r: Report)
    ensures r == Judged(profile, rules, registry)
  {
    var audit := new Audit(profile, rules);
    hide EntityFindings, LedgerStep, FieldValues, Gather;
    var incomplete := 0;
    var entities := registry.entities;
    for i := 0 to |entities|
      invariant audit.Valid() && audit.profile == profile && audit.rules == rules
      invariant audit.findings == RegistryFindings(rules, entities[..i]) && incomplete == Incomplete(entities[..i])
    {
      assert entities[..i + 1][..i] == entities[..i];
      audit.CheckEntity(entities[i], i);
      if entities[i].Obj? && StatusOf(entities[i].fields) != "complete" {
        incomplete := incomplete + 1;
      }
    }
    assert entities[..|entities|] == entities;
    var values := FieldValues(entities);
    ghost var found := audit.findings;
    AuditLedger(audit, values, registry.ledger);
    var success := audit.issues == [] && !Exceeds(audit.sentinels, registry.maxSentinels) && !Exceeds(incomplete, registry.maxIncomplete);
    return Report(success, audit.issues, audit.sentinels, incomplete);
  }

  method AuditLedger(audit: Audit, values: Fields, entries: seq<Json>)
    requires audit.Valid()
    modifies audit
    ensures audit.Valid() && audit.findings == old(audit.findings) + LedgerFindings(audit.rules, values, entries).findings
  {
    hide Gather;
    var seen: set<string> := {};
    for i := 0 to |entries|
      invariant audit.Valid() && seen == LedgerFindings(audit.rules, values, entries[..i]).seen
      invariant audit.findings == old(audit.findings) + LedgerFindings(audit.rules, values, entries[..i]).findings
    {
      assert entries[..i + 1][..i] == entries[..i];
      if !entries[i].Obj? {
        continue;
      }
      var field := TextAt(entries[i].fields, "field_ref");
      if field in seen {
        audit.Report(OfLedgerField(i));
        continue;
      }
      seen := seen + {field};
      if field !in values {
        audit.Report(OfLedgerField(i));
      } else if Contradicts(TextAt(entries[i].fields, "state"), audit.rules.isSentinel(values[field])) {
        audit.Report(OfLedgerState(i));
      }
    }
    assert entries[..|entries|] == entries;
  }

  /* ---------- the profiles compared ---------- */

  /** `t` is `s` with some elements left out. */
  ghost predicate Thins(t: seq<Path>, s: seq<Path>) {
    if s == [] then t == []
    else
      var n := |s| - 1;
      Thins(t, s[..n]) || (t != [] && t[|t| - 1] == s[n] && Thins(t[..|t| - 1], s[..n]))
  }

  lemma {:induction false} ThinsConcat(t: seq<Path>, s: seq<Path>, u: seq<Path>, v: seq<Path>)
    requires Thins(t, s) && (u == v || u == []) && |v| <= 1
    ensures Thins(t + u, s + v)
  {
    if v == [] {
      assert s + v == s && t + u == t;
    } else {
      assert (s + v)[..|s + v| - 1] == s;
      if u == [] {
        assert t + u == t;
      } else {
        assert (t + u)[..|t + u| - 1] == t;
      }
    }
  }

  /** A later profile only drops issues. */
  ghost predicate Relaxes(strict: Profile, loose: Profile) {
    (strict == Greenfield && loose == Migration) || (strict == Migration && loose == Brownfield)
  }

  lemma {:induction false} IssuesThin(strict: Profile, loose: Profile, findings: seq<Finding>)
    requires Relaxes(strict, loose)
    ensures Thins(Gather(IssuesFor(loose), findings), Gather(IssuesFor(strict), findings))
  {
    if findings != [] {
      var n := |findings| - 1;
      IssuesThin(strict, loose, findings[..n]);
      var f := findings[n];
      ThinsConcat(Gather(IssuesFor(loose), findings[..n]), Gather(IssuesFor(strict), findings[..n]),
        IssuesFor(loose)(f), IssuesFor(strict)(f));
    }
  }

  /** Without issues under the stricter profile the looser one counts no more sentinels. */
  lemma {:induction false} HitsBounded(strict: Profile, loose: Profile, findings: seq<Finding>)
    requires Relaxes(strict, loose) && Gather(IssuesFor(strict), findings) == []
    ensures Gather(HitsFor(loose), findings) == Gather(HitsFor(strict), findings)
  {
    if findings != [] {
      var n := |findings| - 1;
      var f := findings[n];
      assert Gather(IssuesFor(strict), findings[..n]) + IssuesFor(strict)(f) == [];
      HitsBounded(strict, loose, findings[..n]);
    }
  }

  lemma ThinnedEmpty(t: seq<Path>)
    requires Thins(t, [])
    ensures t == []
  {
  }

  /**
   * Monotonicity: for the same registry, ledger and thresholds each looser profile reports a thinned list
   * of the issues of the stricter one, counts the same incomplete entities, and succeeds where the
   * stricter one does, although it counts sentinels that the stricter one never counted.
   */
  lemma ProfilesAreMonotone(strict: Profile, loose: Profile, rules: Rules, registry: Registry)
    requires Relaxes(strict, loose)
    ensures var a, b := Judged(strict, rules, registry), Judged(loose, rules, registry);
            && Thins(b.issues, a.issues) && b.incomplete == a.incomplete && (a.success ==> b.success)
  {
    hide AllFindings, Gather;
    var findings := AllFindings(rules, registry);
    IssuesThin(strict, loose, findings);
    if Judged(strict, rules, registry).success {
      HitsBounded(strict, loose, findings);
      ThinnedEmpty(Gather(IssuesFor(loose), findings));
    }
  }
}
