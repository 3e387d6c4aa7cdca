/**
 * Embodiment linkage: attribution records are folded into links, rejected claims and diagnostics.  The
 * keys by which claims are compared are joined strings, as in the program.
 */
module Linkage {
  import opened Prelude
  import opened Ordering
  import opened Strings

  const US: string := "\U{1F}"
  const UNIT: char := '\U{1F}'

  type Fields = map<string, Json>

  datatype Profile = Greenfield | Brownfield | Migration
  datatype Version = V15 | V16
  datatype Severity = Error | Warning
  datatype Path = OfRecord(record: nat) | OfClaims(record: nat) | OfClaim(record: nat, claim: nat)

  datatype Code =
    | InvalidRecord | MissingClaims
    | DuplicateClaim | DuplicateOccurrence | ConflictingOccurrence | ConflictingImplementationType
    | EnforcesConfidence | UnresolvedTarget | AssertedTypeMismatch | IllegalTargetType
    | TargetLifecycle

  datatype Diagnostic = Diagnostic(severity: Severity, code: Code, path: Path)

  /** What a run is given besides the records.  `json` is the serializer of JSON values. */
  datatype Context = Context(profile: Profile, version: Version, entities: map<string, Fields>, json: Json -> string)

  function Text(fields: Fields, key: string): string {
    if key in fields && fields[key].Str? then fields[key].text else ""
  }

  function OptionalText(fields: Fields, key: string): Option<string> {
    if key in fields && fields[key].Str? then Some(fields[key].text) else None
  }

  /* ---------- provenance and occurrences ---------- */

  function Serialized(json: Json -> string, fields: Fields, key: string): string {
    if key in fields then json(fields[key]) else ""
  }

  /** The six parts that identify where evidence comes from. */
  function ProvenanceParts(json: Json -> string, fields: Fields): (parts: seq<string>)
    ensures |parts| == 6
  {
    [Text(fields, "source_file"), Text(fields, "source_pointer"), Serialized(json, fields, "start_line"),
     Serialized(json, fields, "end_line"), Text(fields, "extractor"), Text(fields, "commit")]
  }

  function JoinSix(parts: seq<string>): string
    requires |parts| == 6
  {
    parts[0] + US + parts[1] + US + parts[2] + US + parts[3] + US + parts[4] + US + parts[5]
  }

  function ProvenanceKey(json: Json -> string, value: Option<Json>): string {
    match value
    case Some(Obj(fields)) => JoinSix(ProvenanceParts(json, fields))
    case _ => ""
  }

  const PROVENANCE_KEYS: set<string> := {"source_file", "extractor", "commit", "source_pointer", "start_line", "end_line"}

  function CopyProvenance(value: Option<Json>): Json {
    match value
    case Some(Obj(fields)) => Obj(map k | k in fields && k in PROVENANCE_KEYS :: fields[k])
    case _ => Obj(map[])
  }

  datatype Occurrence = Occurrence(confidence: string, provenance: Json, language: Option<Json>)

  function OccurrenceKey(json: Json -> string, o: Occurrence): string {
    ProvenanceKey(json, Some(o.provenance)) + US + o.confidence + US
    + (match o.language case Some(Str(s)) => s case _ => "")
  }

  /* ---------- claims ---------- */

  function Lookup(fields: Fields, key: string): Option<Json> {
    if key in fields then Some(fields[key]) else None
  }

  /** A claim object together with the record that makes it. */
  datatype Claim = Claim(record: Fields, claim: Fields) {
    function Implementation(): string { Text(record, "implementation_entity_id") }
    function ImplementationType(): string { Text(record, "implementation_entity_type") }
    function Language(): Option<string> { OptionalText(record, "attribution_source_language") }
    function Relationship(): string { Text(claim, "relationship") }
    function Target(): string { Text(claim, "target_entity_id") }
    function Confidence(): string { Text(claim, "confidence") }
    function PairKey(): string { Relationship() + US + Target() }
    function GroupKey(): string { Implementation() + US + Relationship() + US + Target() }

    function Identity(json: Json -> string): string {
      GroupKey() + US + ProvenanceKey(json, Lookup(record, "provenance"))
    }

    function Evidence(): Occurrence {
      Occurrence(Confidence(), CopyProvenance(Lookup(record, "provenance")), Lookup(record, "attribution_source_language"))
    }
  }

  function RankText(relationship: string): string {
    if relationship == "implements" then "00"
    else if relationship == "enforces" then "01"
    else if relationship == "embodies" then "02"
    else "99"
  }

  predicate AllowedTarget(relationship: string, entityType: string) {
    if relationship == "implements" then
      entityType in {"adr", "decision", "capability", "contract", "interface", "implementation_decision"}
    else if relationship == "enforces" then entityType == "invariant"
    else if relationship == "embodies" then entityType in {"system", "component", "boundary"}
    else false
  }

  /** One step of the traversal of the records. */
  datatype Event =
    | BadRecord(at: nat)
    | Unattributed(at: nat)
    | Claimed(at: nat, index: nat, claim: Claim, previousType: string)

  function ClaimsOf(record: Fields): seq<Json> {
    if "claims" in record && record["claims"].Arr? then record["claims"].items else []
  }

  function ClaimEvents(at: nat, record: Fields, claims: seq<Json>, previousType: string): seq<Event> {
    if claims == [] then []
    else
      var i, raw := |claims| - 1, claims[|claims| - 1];
      ClaimEvents(at, record, claims[..i], previousType)
      + if raw.Obj? then [Claimed(at, i, Claim(record, raw.fields), previousType)] else []
  }

  function HeaderEvents(at: nat, record: Fields): seq<Event> {
    if ClaimsOf(record) == [] then [Unattributed(at)] else []
  }

  /** The type each implementation was first given, records without claims included. */
  function Types(records: seq<Json>): map<string, string> {
    if records == [] then map[] else
    var last, types := records[|records| - 1], Types(records[..|records| - 1]);
    if last.Obj? then TypesWith(types, last.fields) else types
  }

  function TypesWith(types: map<string, string>, record: Fields): map<string, string> {
    var id := Text(record, "implementation_entity_id");
    if id in types then types else types[id := Text(record, "implementation_entity_type")]
  }

  /** The type an implementation had before this record, or gets from it. */
  function PreviousType(types: map<string, string>, record: Fields): string {
    var id := Text(record, "implementation_entity_id");
    if id in types then types[id] else Text(record, "implementation_entity_type")
  }

  function RecordEvents(at: nat, raw: Json, types: map<string, string>): seq<Event> {
    if !raw.Obj? then [BadRecord(at)] else
    HeaderEvents(at, raw.fields) + ClaimEvents(at, raw.fields, ClaimsOf(raw.fields), PreviousType(types, raw.fields))
  }

  function Events(records: seq<Json>): seq<Event> {
    if records == [] then [] else
    var n := |records| - 1;
    Events(records[..n]) + RecordEvents(n, records[n], Types(records[..n]))
  }

  /* ---------- the verdict on one claim ---------- */

  /** The same pair was claimed before in the same record. */
  ghost predicate SeenInRecord(before: seq<Event>, at: nat, pair: string) {
    exists i :: 0 <= i < |before| && before[i].Claimed? && before[i].at == at && before[i].claim.PairKey() == pair
  }

  datatype Qualifiers = Qualifiers(confidence: string, language: Option<string>)

  /** The qualifiers of the first claim with an identity. */
  function Prior(json: Json -> string, before: seq<Event>, identity: string): Option<Qualifiers> {
    if before == [] then None else
    var n := |before| - 1;
    var earlier := Prior(json, before[..n], identity);
    if earlier.Some? then earlier
    else if before[n].Claimed? && before[n].claim.Identity(json) == identity then
      Some(Qualifiers(before[n].claim.Confidence(), before[n].claim.Language()))
    else None
  }

  function When(condition: bool, code: Code, e: Event): seq<Diagnostic>
    requires e.Claimed?
  {
    if condition then [Diagnostic(Error, code, OfClaim(e.at, e.index))] else []
  }

  /** The diagnostics of a claim, in the order they are found; every one of them is an error. */
  function Faults(ctx: Context, e: Event, repeated: bool, prior: Option<Qualifiers>): seq<Diagnostic>
    requires e.Claimed?
  {
    var c := e.claim;
    When(repeated, DuplicateClaim, e)
    + (match prior
       case None => []
       case Some(q) =>
         When(true, if q == Qualifiers(c.Confidence(), c.Language()) then DuplicateOccurrence else ConflictingOccurrence, e))
    + When(e.previousType != c.ImplementationType(), ConflictingImplementationType, e)
    + When(ctx.version == V16 && c.Relationship() == "enforces" && c.Confidence() != "declared", EnforcesConfidence, e)
    + TargetFaults(ctx, e)
  }

  function TargetFaults(ctx: Context, e: Event): seq<Diagnostic>
    requires e.Claimed?
  {
    var c := e.claim;
    if c.Target() !in ctx.entities then When(true, UnresolvedTarget, e) else
    var kind := Text(ctx.entities[c.Target()], "entity_type");
    var asserted := OptionalText(c.claim, "asserted_target_entity_type");
    When(asserted.Some? && asserted.value != kind, AssertedTypeMismatch, e)
    + When(!AllowedTarget(c.Relationship(), kind), IllegalTargetType, e)
  }

  ghost function FaultsAfter(ctx: Context, before: seq<Event>, e: Event): seq<Diagnostic>
    requires e.Claimed?
  {
    Faults(ctx, e, SeenInRecord(before, e.at, e.claim.PairKey()), Prior(ctx.json, before, e.claim.Identity(ctx.json)))
  }

  /* ---------- the fold ---------- */

  datatype Group = Group(implementationType: string, entity: Fields, occurrences: seq<Occurrence>, warnings: seq<Diagnostic>)

  datatype Rejection = Rejection(
    implementation: string, implementationType: string, relationship: string, target: string, confidence: string,
    provenance: Json, diagnostics: seq<Diagnostic>)

  datatype Tally = Tally(diagnostics: seq<Diagnostic>, rejected: seq<(string, Rejection)>, groups: map<string, Group>)

  function RejectionOf(c: Claim, faults: seq<Diagnostic>): Rejection {
    Rejection(c.Implementation(), c.ImplementationType(), c.Relationship(), c.Target(), c.Confidence(),
      CopyProvenance(Lookup(c.record, "provenance")), faults)
  }

  function RejectionKey(json: Json -> string, c: Claim): string {
    c.Implementation() + US + RankText(c.Relationship()) + US + c.Target() + US + ProvenanceKey(json, Lookup(c.record, "provenance"))
  }

  predicate Fading(entity: Fields) {
    Text(entity, "lifecycle_stage") == "deprecated" || Text(entity, "lifecycle_stage") == "superseded"
  }

  function Warnings(ctx: Context, e: Event): seq<Diagnostic>
    requires e.Claimed? && e.claim.Target() in ctx.entities
  {
    if Fading(ctx.entities[e.claim.Target()]) then [Diagnostic(Warning, TargetLifecycle, OfClaim(e.at, e.index))] else []
  }

  function Admit(ctx: Context, groups: map<string, Group>, e: Event): map<string, Group>
    requires e.Claimed? && e.claim.Target() in ctx.entities
  {
    var c, key := e.claim, e.claim.GroupKey();
    var group := if key in groups then groups[key] else Group(c.ImplementationType(), ctx.entities[c.Target()], [], []);
    groups[key := group.(occurrences := group.occurrences + [c.Evidence()], warnings := group.warnings + Warnings(ctx, e))]
  }

  lemma FaultlessTargetExists(ctx: Context, e: Event, repeated: bool, prior: Option<Qualifiers>)
    requires e.Claimed?
    ensures Faults(ctx, e, repeated, prior) == [] ==> e.claim.Target() in ctx.entities
  {
  }

  function Settled(ctx: Context, t: Tally, e: Event, repeated: bool, prior: Option<Qualifiers>): Tally {
    match e
    case BadRecord(at) => t.(diagnostics := t.diagnostics + [Diagnostic(Error, InvalidRecord, OfRecord(at))])
    case Unattributed(at) =>
      var severity := if ctx.profile == Greenfield then Error else Warning;
      t.(diagnostics := t.diagnostics + [Diagnostic(severity, MissingClaims, OfClaims(at))])
    case Claimed(_, _, c, _) =>
      var faults := Faults(ctx, e, repeated, prior);
      FaultlessTargetExists(ctx, e, repeated, prior);
      if faults != [] then
        t.(diagnostics := t.diagnostics + faults, rejected := t.rejected + [(RejectionKey(ctx.json, c), RejectionOf(c, faults))])
      else
        t.(diagnostics := t.diagnostics + Warnings(ctx, e), groups := Admit(ctx, t.groups, e))
  }

  ghost function Step(ctx: Context, before: seq<Event>, t: Tally, e: Event): Tally {
    if e.Claimed? then
      Settled(ctx, t, e, SeenInRecord(before, e.at, e.claim.PairKey()), Prior(ctx.json, before, e.claim.Identity(ctx.json)))
    else Settled(ctx, t, e, false, None)
  }

  /** The tally of a traversal. */
  ghost function Settle(ctx: Context, events: seq<Event>): Tally {
    if events == [] then Tally([], [], map[]) else
    var n := |events| - 1;
    Step(ctx, events[..n], Settle(ctx, events[..n]), events[n])
  }

  lemma SettleStep(ctx: Context, before: seq<Event>, e: Event)
    ensures Settle(ctx, before + [e]) == Step(ctx, before, Settle(ctx, before), e)
  {
    assert (before + [e])[..|before|] == before;
  }

  /* ---------- the report ---------- */

  datatype Status = Valid | Warned

  datatype Link = Link(
    implementation: string, implementationType: string, relationship: string, target: string, targetType: string,
    aliasId: string, aliasName: string, lifecycle: string, occurrences: seq<Occurrence>, status: Status,
    diagnostics: seq<Diagnostic>)

  datatype Report = Report(
    success: bool, links: seq<Link>, rejected: seq<Rejection>, diagnostics: seq<Diagnostic>, errors: nat, warnings: nat)

  predicate KeyLe<T>(x: (string, T), y: (string, T)) {
    StringLe(x.0, y.0)
  }

  function EvidenceLe(json: Json -> string): (Occurrence, Occurrence) -> bool {
    (x, y) => StringLe(OccurrenceKey(json, x), OccurrenceKey(json, y))
  }

  function Part(parts: seq<string>, i: nat): string {
    if i < |parts| then parts[i] else ""
  }

  /** The link of a group with its sort key; the ids are split off the group key again. */
  function LinkOf(json: Json -> string, key: string, group: Group): (string, Link) {
    var parts := Split(key, UNIT);
    var occurrences := Sort(EvidenceLe(json), group.occurrences);
    var first := if occurrences == [] then "" else OccurrenceKey(json, occurrences[0]);
    (Part(parts, 0) + US + RankText(Part(parts, 1)) + US + Part(parts, 2) + US + first,
     Link(Part(parts, 0), group.implementationType, Part(parts, 1), Part(parts, 2), Text(group.entity, "entity_type"),
       Text(group.entity, "alias_id"), Text(group.entity, "alias_name"), Text(group.entity, "lifecycle_stage"),
       occurrences, if group.warnings == [] then Valid else Warned, group.warnings))
  }

  function KeyedLinks(json: Json -> string, groups: map<string, Group>, keys: seq<string>): seq<(string, Link)>
    requires forall k :: k in keys ==> k in groups
  {
    seq(|keys|, i requires 0 <= i < |keys| => LinkOf(json, keys[i], groups[keys[i]]))
  }

  function Unkeyed<T>(pairs: seq<(string, T)>): seq<T> {
    seq(|pairs|, i requires 0 <= i < |pairs| => pairs[i].1)
  }

  function LinksOf(json: Json -> string, groups: map<string, Group>): seq<Link> {
    Unkeyed(Sort(KeyLe, KeyedLinks(json, groups, SortedKeys(groups.Keys))))
  }

  function CountOf(diagnostics: seq<Diagnostic>, severity: Severity): nat {
    if diagnostics == [] then 0
    else CountOf(diagnostics[..|diagnostics| - 1], severity)
         + if diagnostics[|diagnostics| - 1].severity == severity then 1 else 0
  }

  function ReportOf(json: Json -> string, t: Tally): Report {
    Report(CountOf(t.diagnostics, Error) == 0, LinksOf(json, t.groups), Unkeyed(Sort(KeyLe, t.rejected)), t.diagnostics,
      CountOf(t.diagnostics, Error), CountOf(t.diagnostics, Warning))
  }
}
