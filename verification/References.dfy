/**
 * Reference validation over the normalized records of an architecture: records sorted by id, sets and maps
 * built from them, and diagnostics for every reference that leads nowhere.
 */
module References {
  import opened Prelude
  import opened Ordering
  import opened Grouping

  type Fields = map<string, Json>

  datatype Record = Record(id: string, kind: string, fields: Fields)

  datatype Code = InvalidRecord | DuplicateIds | CrossReference | ReviewReference | OverrideReference | TopologyMembership

  /** `subject` is the reference that is at fault; `other` what it is held against, if anything. */
  datatype Diagnostic = Diagnostic(code: Code, owner: string, field: string, subject: string, other: string, warning: bool)
                      | Invalid(index: nat, field: string)

  function Text(fields: Fields, key: string): Option<string> {
    if key in fields && fields[key].Str? then Some(fields[key].text) else None
  }

  function ListAt(fields: Fields, key: string): seq<Json> {
    if key in fields && fields[key].Arr? then fields[key].items else []
  }

  /** The strings of a list, sorted and without repetitions. */
  function StringSet(fields: Fields, key: string): set<string> {
    set i | 0 <= i < |ListAt(fields, key)| && ListAt(fields, key)[i].Str? :: ListAt(fields, key)[i].text
  }

  function Strings(fields: Fields, key: string): seq<string> {
    SortedKeys(StringSet(fields, key))
  }

  /* ---------- records ---------- */

  function RecordOf(raw: Json): Option<Record> {
    if !raw.Obj? then None else
    match (Text(raw.fields, "id"), Text(raw.fields, "kind"))
    case (Some(id), Some(kind)) => Some(Record(id, kind, raw.fields))
    case _ => None
  }

  function Fault(raw: Json, i: nat): Diagnostic {
    Invalid(i, if !raw.Obj? then "" else if Text(raw.fields, "id").None? then "id" else "kind")
  }

  function RecordsIn(raw: Json): seq<Record> {
    match RecordOf(raw)
    case Some(record) => [record]
    case None => []
  }

  function Faults(raws: seq<Json>): seq<Diagnostic> {
    if raws == [] then [] else
    var n := |raws| - 1;
    Faults(raws[..n]) + if RecordOf(raws[n]).None? then [Fault(raws[n], n)] else []
  }

  predicate ById(x: Record, y: Record) {
    StringLe(x.id, y.id)
  }

  /* ---------- what the records say together ---------- */

  function IdsOf(records: seq<Record>): set<string> {
    set i | 0 <= i < |records| :: records[i].id
  }

  function IdsOfKind(records: seq<Record>, kind: string): set<string> {
    set i | 0 <= i < |records| && records[i].kind == kind :: records[i].id
  }

  function Systems(records: seq<Record>): map<string, string> {
    if records == [] then map[] else
    var before, last := Systems(records[..|records| - 1]), records[|records| - 1];
    var system := Text(last.fields, "system_id");
    if last.kind == "physical-system" && system.Some? then before[last.id := system.value] else before
  }

  function Resolved(systems: map<string, string>, reference: string): string {
    if reference in systems then systems[reference] else reference
  }

  /** The systems that a component record implements, through the mapping from ADRs to systems. */
  function Implemented(systems: map<string, string>, r: Record): set<string> {
    set reference | reference in StringSet(r.fields, "implements_system") :: Resolved(systems, reference)
  }

  function ComponentId(specification: Json): Option<string> {
    if !specification.Obj? then None else
    match Text(specification.fields, "id")
    case Some(id) => Some(id)
    case None => Text(specification.fields, "component_id")
  }

  function SystemsOf(claims: map<string, set<string>>, component: string): set<string> {
    if component in claims then claims[component] else {}
  }

  function WithSpecifications(claims: map<string, set<string>>, systems: set<string>, specifications: seq<Json>)
    : map<string, set<string>>
  {
    if specifications == [] then claims else
    var before := WithSpecifications(claims, systems, specifications[..|specifications| - 1]);
    match ComponentId(specifications[|specifications| - 1])
    case None => before
    case Some(id) => before[id := SystemsOf(before, id) + systems]
  }

  function Claims(systems: map<string, string>, records: seq<Record>): map<string, set<string>> {
    if records == [] then map[] else
    var before, last := Claims(systems, records[..|records| - 1]), records[|records| - 1];
    if last.kind != "physical-component" then before
    else WithSpecifications(before, Implemented(systems, last), ListAt(last.fields, "component_specifications"))
  }

  /* ---------- diagnostics of one record ---------- */

  /** The references of a list that are not among the known ids. */
  function Dangling(r: Record, field: string, references: seq<string>, known: set<string>, warning: bool): seq<Diagnostic> {
    if references == [] then [] else
    var last := references[|references| - 1];
    Dangling(r, field, references[..|references| - 1], known, warning)
    + if last in known then [] else [Diagnostic(CrossReference, r.id, field, last, "", warning)]
  }

  /** The references to reviews or overrides that are missing or belong to another record. */
  function Misdirected(r: Record, code: Code, field: string, references: seq<string>, targets: map<string, Option<string>>)
    : seq<Diagnostic>
  {
    if references == [] then [] else
    var last := references[|references| - 1];
    Misdirected(r, code, field, references[..|references| - 1], targets)
    + if last !in targets then [Diagnostic(code, r.id, field, last, "", false)]
      else if targets[last].Some? && targets[last].value != r.id then
        [Diagnostic(code, r.id, field, last, targets[last].value, false)]
      else []
  }

  function Unclaimed(r: Record, system: string, components: seq<string>, claims: map<string, set<string>>): seq<Diagnostic> {
    if components == [] then [] else
    var last := components[|components| - 1];
    Unclaimed(r, system, components[..|components| - 1], claims)
    + if system in SystemsOf(claims, last) then []
      else [Diagnostic(TopologyMembership, r.id, "component_topology", last, system, false)]
  }

  /** A review or an override, with the record it is about; only overrides may leave that open. */
  datatype Attachment = Attachment(id: string, target: Option<string>)

  datatype Side = Side(reviews: seq<Attachment>, overrides: seq<Attachment>)

  /** The attachments by id; of several with one id the last counts. */
  function Targets(attachments: seq<Attachment>): map<string, Option<string>> {
    if attachments == [] then map[] else
    var last := attachments[|attachments| - 1];
    Targets(attachments[..|attachments| - 1])[last.id := last.target]
  }

  /** The attachments whose record is not there. */
  function Stray(code: Code, field: string, attachments: seq<Attachment>, all: set<string>): seq<Diagnostic> {
    if attachments == [] then [] else
    var last := attachments[|attachments| - 1];
    Stray(code, field, attachments[..|attachments| - 1], all)
    + if last.target.None? || last.target.value in all then []
      else [Diagnostic(code, last.id, field, last.target.value, "", false)]
  }

  /** What all records together provide for the checks of each. */
  datatype Known = Known(all: set<string>, logical: set<string>, systems: set<string>, components: set<string>,
                         claims: map<string, set<string>>)

  predicate Physical(kind: string) {
    kind == "physical" || kind == "physical-system" || kind == "physical-component"
  }

  function When(condition: bool, diagnostics: seq<Diagnostic>): seq<Diagnostic> {
    if condition then diagnostics else []
  }

  /** Only systems of schema version 1.5 that declare a system id are held to their topology. */
  function TopologySystem(r: Record): Option<string> {
    if r.kind == "physical-system" && Text(r.fields, "schema_version") == Some("1.5") then Text(r.fields, "system_id") else None
  }

  function TopologyDiagnostics(k: Known, r: Record): seq<Diagnostic> {
    match TopologySystem(r)
    case None => []
    case Some(system) => Unclaimed(r, system, Strings(r.fields, "topology_components"), k.claims)
  }

  function RecordDiagnostics(k: Known, side: Side, r: Record): seq<Diagnostic> {
    When(Physical(r.kind), Dangling(r, "implements_logical", Strings(r.fields, "implements_logical"), k.logical, false))
    + When(r.kind == "physical-system",
        Dangling(r, "references_components", Strings(r.fields, "references_components"), k.components, false))
    + When(r.kind == "physical-component",
        Dangling(r, "implements_system", Strings(r.fields, "implements_system"), k.systems, false))
    + Dangling(r, "related_adrs", Strings(r.fields, "related_adrs"), k.all, true)
    + Misdirected(r, ReviewReference, "related_reviews", Strings(r.fields, "related_reviews"), Targets(side.reviews))
    + Misdirected(r, OverrideReference, "related_overrides", Strings(r.fields, "related_overrides"), Targets(side.overrides))
    + TopologyDiagnostics(k, r)
  }

  function KnownFrom(records: seq<Record>): Known {
    Known(IdsOf(records), IdsOfKind(records, "logical"), IdsOfKind(records, "physical-system"),
      IdsOfKind(records, "physical-component"), Claims(Systems(records), records))
  }

  /** One diagnostic for every record whose id an earlier one has. */
  function Duplicates(records: seq<Record>): seq<Diagnostic> {
    if records == [] then [] else
    var n := |records| - 1;
    Duplicates(records[..n])
    + if records[n].id in IdsOf(records[..n]) then [Diagnostic(DuplicateIds, "", "", "", "", false)] else []
  }

  function AllRecordDiagnostics(k: Known, side: Side, records: seq<Record>): seq<Diagnostic> {
    if records == [] then [] else
    AllRecordDiagnostics(k, side, records[..|records| - 1]) + RecordDiagnostics(k, side, records[|records| - 1])
  }

  function SideDiagnostics(all: set<string>, side: Side): seq<Diagnostic> {
    Stray(ReviewReference, "target_adr", side.reviews, all) + Stray(OverrideReference, "related_adr", side.overrides, all)
  }

  /** The whole list: malformed records, repeated ids, the records in order of their ids, reviews and overrides. */
  function Diagnostics(raws: seq<Json>, side: Side): seq<Diagnostic> {
    var records := Sort(ById, Gather(RecordsIn, raws));
    Faults(raws) + Duplicates(records) + AllRecordDiagnostics(KnownFrom(records), side, records)
    + SideDiagnostics(IdsOf(records), side)
  }

  /* ---------- the validation ---------- */

  method ValidateReferences(raws: seq<Json>, side: Side) returns (diagnostics: seq<Diagnostic>)
    ensures diagnostics == Diagnostics(raws, side)
  {
    hide RecordDiagnostics, Claims, Systems, Sort, Fault, Stray;
    var records: seq<Record> := [];
    diagnostics := [];
    for i := 0 to |raws|
      invariant diagnostics == Faults(raws[..i]) && records == Gather(RecordsIn, raws[..i])
    {
      assert raws[..i + 1][..i] == raws[..i];
      var record := RecordOf(raws[i]);
      if record.None? {
        diagnostics := diagnostics + [Fault(raws[i], i)];
        continue;
      }
      records := records + [record.value];
    }
    assert raws[..|raws|] == raws;
    records := Sort(ById, records);
    var duplicates, known := Survey(records);
    var found: seq<Diagnostic> := [];
    for i := 0 to |records|
      invariant found == AllRecordDiagnostics(known, side, records[..i])
    {
      assert records[..i + 1][..i] == records[..i];
      found := found + RecordDiagnostics(known, side, records[i]);
    }
    assert records[..|records|] == records;
    var reviews := FindStray(ReviewReference, "target_adr", side.reviews, known.all);
    var overrides := FindStray(OverrideReference, "related_adr", side.overrides, known.all);
    diagnostics := diagnostics + duplicates + found + (reviews + overrides);
  }

  method FindStray(code: Code, field: string, attachments: seq<Attachment>, all: set<string>)
    returns (stray: seq<Diagnostic>)
    ensures stray == Stray(code, field, attachments, all)
  {
    stray := [];
    for i := 0 to |attachments|
      invariant stray == Stray(code, field, attachments[..i], all)
    {
      assert attachments[..i + 1][..i] == attachments[..i];
      var target := attachments[i].target;
      if target.Some? && target.value !in all {
        stray := stray + [Diagnostic(code, attachments[i].id, field, target.value, "", false)];
      }
    }
    assert attachments[..|attachments|] == attachments;
  }

  /** The sets and maps, in two passes: systems are resolved before components claim them. */
  method Survey(records: seq<Record>) returns (duplicates: seq<Diagnostic>, known: Known)
    ensures duplicates == Duplicates(records) && known == KnownFrom(records)
  {
    duplicates := [];
    var all: set<string>, logical: set<string>, systems: set<string>, components: set<string> := {}, {}, {}, {};
    var systemByAdr: map<string, string> := map[];
    for i := 0 to |records|
      invariant duplicates == Duplicates(records[..i]) && all == IdsOf(records[..i])
      invariant logical == IdsOfKind(records[..i], "logical") && systems == IdsOfKind(records[..i], "physical-system")
      invariant components == IdsOfKind(records[..i], "physical-component") && systemByAdr == Systems(records[..i])
    {
      var r := records[i];
      IdsStep(records, i);
      if r.id in all {
        duplicates := duplicates + [Diagnostic(DuplicateIds, "", "", "", "", false)];
      }
      all := all + {r.id};
      if r.kind == "logical" {
        logical := logical + {r.id};
      } else if r.kind == "physical-system" {
        systems := systems + {r.id};
        var system := Text(r.fields, "system_id");
        if system.Some? {
          systemByAdr := systemByAdr[r.id := system.value];
        }
      } else if r.kind == "physical-component" {
        components := components + {r.id};
      }
    }
    assert records[..|records|] == records;
    var claims := CollectClaims(systemByAdr, records);
    known := Known(all, logical, systems, components, claims);
  }

  lemma IdsStep(records: seq<Record>, i: nat)
    requires i < |records|
    ensures records[..i + 1][..i] == records[..i]
    ensures IdsOf(records[..i + 1]) == IdsOf(records[..i]) + {records[i].id}
    ensures forall kind :: IdsOfKind(records[..i + 1], kind)
              == IdsOfKind(records[..i], kind) + if records[i].kind == kind then {records[i].id} else {}
  {
    var before, after := records[..i], records[..i + 1];
    assert after == before + [records[i]];
    assert after[i] == records[i] && forall j :: 0 <= j < i ==> after[j] == before[j];
  }

  method CollectClaims(systems: map<string, string>, records: seq<Record>) returns (claims: map<string, set<string>>)
    ensures claims == Claims(systems, records)
  {
    claims := map[];
    for i := 0 to |records|
      invariant claims == Claims(systems, records[..i])
    {
      assert records[..i + 1][..i] == records[..i];
      var r := records[i];
      if r.kind != "physical-component" {
        continue;
      }
      var implemented := Implemented(systems, r);
      var specifications := ListAt(r.fields, "component_specifications");
      ghost var before := claims;
      for j := 0 to |specifications|
        invariant claims == WithSpecifications(before, implemented, specifications[..j])
      {
        assert specifications[..j + 1][..j] == specifications[..j];
        var id := ComponentId(specifications[j]);
        if id.Some? {
          claims := claims[id.value := SystemsOf(claims, id.value) + implemented];
        }
      }
      assert specifications[..|specifications|] == specifications;
    }
    assert records[..|records|] == records;
  }

  /* ---------- order ---------- */

  ghost predicate WellFormed(raws: seq<Json>) {
    (forall raw :: raw in raws ==> RecordOf(raw).Some?) && DistinctBy(IdOf, Gather(RecordsIn, raws))
  }

  function IdOf(r: Record): string { r.id }

  lemma IdOrder()
    ensures Preorder(ById)
  {
    forall x: Record, y: Record ensures ById(x, y) || ById(y, x) {
      StringLeTotal(x.id, y.id);
    }
    forall x: Record, y: Record, z: Record | ById(x, y) && ById(y, z) ensures ById(x, z) {
      StringLeTransitive(x.id, y.id, z.id);
    }
  }

  lemma {:induction false} NoFaults(raws: seq<Json>)
    requires forall raw :: raw in raws ==> RecordOf(raw).Some?
    ensures Faults(raws) == []
  {
    if raws != [] {
      NoFaults(raws[..|raws| - 1]);
    }
  }

  lemma DistinctIdsSeparate(records: seq<Record>)
    requires DistinctBy(IdOf, records)
    ensures Separates(ById, multiset(records))
  {
    forall x, y | x in multiset(records) && y in multiset(records) && ById(x, y) && ById(y, x) ensures x == y {
      StringLeAntisymmetric(x.id, y.id);
      assert x in records && y in records;
      assert IdOf(x) == IdOf(y);
    }
  }

  /**
   * Order-freedom: well-formed records with distinct ids give one and the same list of diagnostics,
   * whatever the order in which the host found them.
   */
  lemma DiagnosticsIgnoreOrder(s: seq<Json>, t: seq<Json>, side: Side)
    requires multiset(s) == multiset(t) && WellFormed(s)
    ensures Diagnostics(s, side) == Diagnostics(t, side) && WellFormed(t)
  {
    hide RecordOf, AllRecordDiagnostics, KnownFrom, Duplicates;
    forall raw ensures raw in s <==> raw in t {
      SameMembers(s, t, raw);
    }
    NoFaults(s);
    NoFaults(t);
    GatherPermuted(RecordsIn, s, t);
    DistinctByPermuted(IdOf, Gather(RecordsIn, s), Gather(RecordsIn, t));
    IdOrder();
    DistinctIdsSeparate(Gather(RecordsIn, s));
    SortPermutation(ById, Gather(RecordsIn, s), Gather(RecordsIn, t));
  }

  /* ---------- topology membership ---------- */

  /** A component record specifies the component and implements the system, through the mapping. */
  ghost predicate ClaimedBy(systems: map<string, string>, r: Record, component: string, system: string) {
    r.kind == "physical-component" && system in Implemented(systems, r)
    && exists specification :: specification in ListAt(r.fields, "component_specifications")
                               && ComponentId(specification) == Some(component)
  }

  lemma {:induction false} SpecificationsMean(
      claims: map<string, set<string>>, systems: set<string>, specifications: seq<Json>, component: string, system: string)
    ensures system in SystemsOf(WithSpecifications(claims, systems, specifications), component) <==>
              system in SystemsOf(claims, component)
              || (system in systems && exists s :: s in specifications && ComponentId(s) == Some(component))
  {
    if specifications != [] {
      var init, last := specifications[..|specifications| - 1], specifications[|specifications| - 1];
      SpecificationsMean(claims, systems, init, component, system);
      assert specifications == init + [last];
      assert forall s :: s in specifications <==> s in init || s == last;
    }
  }

  lemma {:induction false} ClaimsMean(systems: map<string, string>, records: seq<Record>, component: string, system: string)
    ensures system in SystemsOf(Claims(systems, records), component) <==>
              exists r :: r in records && ClaimedBy(systems, r, component, system)
  {
    if records != [] {
      hide Implemented, ComponentId;
      var init, last := records[..|records| - 1], records[|records| - 1];
      ClaimsMean(systems, init, component, system);
      assert records == init + [last];
      assert forall r :: r in records <==> r in init || r == last;
      if last.kind == "physical-component" {
        SpecificationsMean(Claims(systems, init), Implemented(systems, last), ListAt(last.fields, "component_specifications"),
          component, system);
      }
      ghost var claimed := ClaimedBy(systems, last, component, system);
      assert (exists r :: r in records && ClaimedBy(systems, r, component, system))
        <==> (exists r :: r in init && ClaimedBy(systems, r, component, system)) || claimed;
    }
  }

  ghost predicate Declares(r: Record, adr: string, system: string) {
    r.id == adr && r.kind == "physical-system" && Text(r.fields, "system_id") == Some(system)
  }

  ghost predicate Maps(systems: map<string, string>, adr: string, system: string) {
    adr in systems && systems[adr] == system
  }

  function Membership(r: Record, component: string, system: string): Diagnostic {
    Diagnostic(TopologyMembership, r.id, "component_topology", component, system, false)
  }

  lemma {:induction false} UnclaimedMeans(
      r: Record, system: string, components: seq<string>, claims: map<string, set<string>>, component: string)
    ensures Membership(r, component, system) in Unclaimed(r, system, components, claims) <==>
              component in components && system !in SystemsOf(claims, component)
  {
    if components != [] {
      var init, last := components[..|components| - 1], components[|components| - 1];
      UnclaimedMeans(r, system, init, claims, component);
      assert components == init + [last];
    }
  }

  /**
   * Topology membership, exactly: a system record held to its topology is reported for a member if and
   * only if no component record claims that component for that system through the mapping.
   */
  lemma MembershipExactly(records: seq<Record>, r: Record, component: string)
    requires TopologySystem(r).Some?
    ensures var system := TopologySystem(r).value;
            Membership(r, component, system) in TopologyDiagnostics(KnownFrom(records), r) <==>
              component in StringSet(r.fields, "topology_components")
              && !(exists p :: p in records && ClaimedBy(Systems(records), p, component, system))
  {
    hide Claims, ClaimedBy, Systems, IdsOf, IdsOfKind;
    var system := TopologySystem(r).value;
    UnclaimedMeans(r, system, Strings(r.fields, "topology_components"), KnownFrom(records).claims, component);
    ClaimsMean(Systems(records), records, component, system);
  }

  predicate AboutMembership(d: Diagnostic) {
    d.Diagnostic? && d.code == TopologyMembership
  }

  ghost predicate NoMembership(diagnostics: seq<Diagnostic>) {
    forall d :: d in diagnostics ==> !AboutMembership(d)
  }

  lemma {:induction false} DanglingIsOther(r: Record, field: string, references: seq<string>, known: set<string>, warning: bool)
    ensures NoMembership(Dangling(r, field, references, known, warning))
  {
    if references != [] {
      DanglingIsOther(r, field, references[..|references| - 1], known, warning);
    }
  }

  lemma {:induction false} MisdirectedIsOther(
      r: Record, code: Code, field: string, references: seq<string>, targets: map<string, Option<string>>)
    requires code != TopologyMembership
    ensures NoMembership(Misdirected(r, code, field, references, targets))
  {
    if references != [] {
      MisdirectedIsOther(r, code, field, references[..|references| - 1], targets);
    }
  }

  lemma {:induction false} StrayIsOther(code: Code, field: string, attachments: seq<Attachment>, all: set<string>)
    requires code != TopologyMembership
    ensures NoMembership(Stray(code, field, attachments, all))
  {
    if attachments != [] {
      StrayIsOther(code, field, attachments[..|attachments| - 1], all);
    }
  }

  lemma {:induction false} FaultsAreOther(raws: seq<Json>)
    ensures NoMembership(Faults(raws))
  {
    if raws != [] {
      FaultsAreOther(raws[..|raws| - 1]);
    }
  }

  lemma {:induction false} DuplicatesAreOther(records: seq<Record>)
    ensures NoMembership(Duplicates(records))
  {
    if records != [] {
      DuplicatesAreOther(records[..|records| - 1]);
    }
  }

  /** The seven lists of a record, one after the other. */
  lemma RecordLists(k: Known, side: Side, r: Record, d: Diagnostic)
    ensures d in RecordDiagnostics(k, side, r) <==>
              || (Physical(r.kind) && d in Dangling(r, "implements_logical", Strings(r.fields, "implements_logical"), k.logical, false))
              || (r.kind == "physical-system"
                  && d in Dangling(r, "references_components", Strings(r.fields, "references_components"), k.components, false))
              || (r.kind == "physical-component"
                  && d in Dangling(r, "implements_system", Strings(r.fields, "implements_system"), k.systems, false))
              || d in Dangling(r, "related_adrs", Strings(r.fields, "related_adrs"), k.all, true)
              || d in Misdirected(r, ReviewReference, "related_reviews", Strings(r.fields, "related_reviews"), Targets(side.reviews))
              || d in Misdirected(r, OverrideReference, "related_overrides", Strings(r.fields, "related_overrides"), Targets(side.overrides))
              || d in TopologyDiagnostics(k, r)
  {
    hide Dangling, Misdirected, Targets, Strings, TopologyDiagnostics;
  }

  lemma NotIn(diagnostics: seq<Diagnostic>, d: Diagnostic)
    requires NoMembership(diagnostics) && AboutMembership(d)
    ensures d !in diagnostics
  {
  }

  lemma NotDangling(r: Record, field: string, known: set<string>, warning: bool, d: Diagnostic)
    requires AboutMembership(d)
    ensures d !in Dangling(r, field, Strings(r.fields, field), known, warning)
  {
    DanglingIsOther(r, field, Strings(r.fields, field), known, warning);
    hide *;
    NotIn(Dangling(r, field, Strings(r.fields, field), known, warning), d);
  }

  /** Of the diagnostics of a record, those about membership come from its topology. */
  lemma OnlyTopology(k: Known, side: Side, r: Record, d: Diagnostic)
    requires AboutMembership(d)
    ensures d in RecordDiagnostics(k, side, r) <==> d in TopologyDiagnostics(k, r)
  {
    hide *;
    RecordLists(k, side, r, d);
    NotDangling(r, "implements_logical", k.logical, false, d);
    NotDangling(r, "references_components", k.components, false, d);
    NotDangling(r, "implements_system", k.systems, false, d);
    NotDangling(r, "related_adrs", k.all, true, d);
    MisdirectedIsOther(r, ReviewReference, "related_reviews", Strings(r.fields, "related_reviews"), Targets(side.reviews));
    NotIn(Misdirected(r, ReviewReference, "related_reviews", Strings(r.fields, "related_reviews"), Targets(side.reviews)), d);
    MisdirectedIsOther(r, OverrideReference, "related_overrides", Strings(r.fields, "related_overrides"), Targets(side.overrides));
    NotIn(Misdirected(r, OverrideReference, "related_overrides", Strings(r.fields, "related_overrides"), Targets(side.overrides)), d);
  }

  lemma {:induction false} FromSomeRecord(k: Known, side: Side, records: seq<Record>, d: Diagnostic)
    ensures d in AllRecordDiagnostics(k, side, records) <==> exists r :: r in records && d in RecordDiagnostics(k, side, r)
  {
    hide RecordDiagnostics;
    if records != [] {
      var init, last := records[..|records| - 1], records[|records| - 1];
      FromSomeRecord(k, side, init, d);
      assert records == init + [last];
      assert forall r :: r in records <==> r in init || r == last;
    }
  }

  lemma {:induction false} UnclaimedAreMemberships(
      r: Record, system: string, components: seq<string>, claims: map<string, set<string>>)
    ensures forall d :: d in Unclaimed(r, system, components, claims) ==> d.Diagnostic? && d == Membership(r, d.subject, system)
  {
    if components != [] {
      UnclaimedAreMemberships(r, system, components[..|components| - 1], claims);
    }
  }

  lemma OnlyRecordsSpeak(raws: seq<Json>, side: Side, d: Diagnostic)
    requires AboutMembership(d)
    ensures var records := Sort(ById, Gather(RecordsIn, raws));
            d in Diagnostics(raws, side) <==>
            exists r :: r in records && d in RecordDiagnostics(KnownFrom(records), side, r)
  {
    hide RecordsIn, RecordDiagnostics, Duplicates, Stray, KnownFrom, AboutMembership, Sort, Faults, Gather;
    var records := Sort(ById, Gather(RecordsIn, raws));
    FaultsAreOther(raws);
    DuplicatesAreOther(records);
    StrayIsOther(ReviewReference, "target_adr", side.reviews, IdsOf(records));
    StrayIsOther(OverrideReference, "related_adr", side.overrides, IdsOf(records));
    assert d in Diagnostics(raws, side) <==> d in AllRecordDiagnostics(KnownFrom(records), side, records);
    FromSomeRecord(KnownFrom(records), side, records, d);
  }

  lemma MembershipIsDiagnostic(d: Diagnostic)
    requires AboutMembership(d)
    ensures d.Diagnostic?
  {
  }
}
