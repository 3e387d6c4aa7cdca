/**
 * The diagnostics of reference validation, each of them: what the list holds for well-formed records, said of
 * the records, reviews and overrides alone.
 */
module ReferencesResult {
  import opened Prelude
  import opened Ordering
  import opened Grouping
  import opened StableMerge
  import opened References

  /* ---------- what is there ---------- */

  /** The record stands among the given values. */
  ghost predicate Given(raws: seq<Json>, r: Record) {
    exists raw :: raw in raws && raw == Obj(r.fields) && raw.Get("id") == Some(Str(r.id)) && raw.Get("kind") == Some(Str(r.kind))
  }

  ghost predicate Exists(raws: seq<Json>, id: string) {
    exists r :: Given(raws, r) && r.id == id
  }

  ghost predicate ExistsAs(raws: seq<Json>, id: string, kind: string) {
    exists r :: Given(raws, r) && r.id == id && r.kind == kind
  }

  ghost predicate Lists(r: Record, field: string, text: string) {
    exists items :: Obj(r.fields).Get(field) == Some(Arr(items)) && Str(text) in items
  }

  /** The last attachment with the id has this target. */
  ghost predicate LastTarget(attachments: seq<Attachment>, id: string, target: Option<string>) {
    exists i :: 0 <= i < |attachments| && attachments[i] == Attachment(id, target)
                && forall j :: i < j < |attachments| ==> attachments[j].id != id
  }

  /** No attachment has the id, or the one that counts is about another record. */
  ghost predicate Elsewhere(attachments: seq<Attachment>, id: string, owner: string, other: string) {
    ((forall a :: a in attachments ==> a.id != id) && other == "")
    || (LastTarget(attachments, id, Some(other)) && other != owner)
  }

  /* ---------- what is due ---------- */

  /** A field of a record names something that is not there. */
  ghost predicate Broken(raws: seq<Json>, r: Record, field: string, subject: string, warning: bool) {
    Lists(r, field, subject)
    && ((field == "implements_logical" && r.kind in {"physical", "physical-system", "physical-component"}
         && !ExistsAs(raws, subject, "logical") && !warning)
        || (field == "references_components" && r.kind == "physical-system" && !ExistsAs(raws, subject, "physical-component") && !warning)
        || (field == "implements_system" && r.kind == "physical-component" && !ExistsAs(raws, subject, "physical-system") && !warning)
        || (field == "related_adrs" && !Exists(raws, subject) && warning))
  }

  ghost predicate FromRecord(raws: seq<Json>, side: Side, r: Record, d: Diagnostic) {
    d.Diagnostic? && d.owner == r.id
    && match d.code
       case CrossReference => d.other == "" && Broken(raws, r, d.field, d.subject, d.warning)
       case ReviewReference =>
         d.field == "related_reviews" && !d.warning && Lists(r, d.field, d.subject) && Elsewhere(side.reviews, d.subject, r.id, d.other)
       case OverrideReference =>
         d.field == "related_overrides" && !d.warning && Lists(r, d.field, d.subject) && Elsewhere(side.overrides, d.subject, r.id, d.other)
       case _ => false
  }

  /** A review or an override is about a record that is not there. */
  ghost predicate FromSide(raws: seq<Json>, side: Side, d: Diagnostic) {
    d.Diagnostic? && d.other == "" && !d.warning && !Exists(raws, d.subject)
    && ((d.code == ReviewReference && d.field == "target_adr" && Attachment(d.owner, Some(d.subject)) in side.reviews)
        || (d.code == OverrideReference && d.field == "related_adr" && Attachment(d.owner, Some(d.subject)) in side.overrides))
  }

  /* ---------- records and sets ---------- */

  lemma RecordMeans(raw: Json, r: Record)
    ensures RecordOf(raw) == Some(r) <==> raw == Obj(r.fields) && raw.Get("id") == Some(Str(r.id)) && raw.Get("kind") == Some(Str(r.kind))
  {
  }

  lemma GivenMeans(raws: seq<Json>, r: Record)
    ensures r in Gather(RecordsIn, raws) <==> Given(raws, r)
  {
    GatherMembers(RecordsIn, raws, r);
    forall raw ensures r in RecordsIn(raw) <==> raw == Obj(r.fields) && raw.Get("id") == Some(Str(r.id)) && raw.Get("kind") == Some(Str(r.kind)) {
      RecordMeans(raw, r);
    }
    hide RecordsIn, Gather;
  }

  lemma ListsMeans(r: Record, field: string, text: string)
    ensures text in Strings(r.fields, field) <==> Lists(r, field, text)
  {
    if Lists(r, field, text) {
      var items := ListAt(r.fields, field);
      var i :| 0 <= i < |items| && items[i] == Str(text);
    }
    if text in Strings(r.fields, field) {
      var items := ListAt(r.fields, field);
      var i :| 0 <= i < |items| && items[i].Str? && items[i].text == text;
      assert Obj(r.fields).Get(field) == Some(Arr(items));
    }
  }

  lemma IdsMean(records: seq<Record>, id: string)
    ensures id in IdsOf(records) <==> exists r :: r in records && r.id == id
  {
    if r :| r in records && r.id == id {
      var i :| 0 <= i < |records| && records[i] == r;
    }
  }

  lemma KindIdsMean(records: seq<Record>, kind: string, id: string)
    ensures id in IdsOfKind(records, kind) <==> exists r :: r in records && r.id == id && r.kind == kind
  {
    if r :| r in records && r.id == id && r.kind == kind {
      var i :| 0 <= i < |records| && records[i] == r;
    }
  }

  ghost predicate TargetIs(attachments: seq<Attachment>, id: string, target: Option<string>) {
    id in Targets(attachments) && Targets(attachments)[id] == target
  }

  lemma {:induction false} TargetsMean(attachments: seq<Attachment>, id: string, target: Option<string>)
    ensures TargetIs(attachments, id, target) <==> LastTarget(attachments, id, target)
    ensures id !in Targets(attachments) <==> forall a :: a in attachments ==> a.id != id
  {
    if attachments != [] {
      var n := |attachments| - 1;
      var init, last := attachments[..n], attachments[n];
      TargetsMean(init, id, target);
      assert attachments == init + [last];
      LastStep(init, last, id, target);
      hide LastTarget;
    }
  }

  lemma LastStep(init: seq<Attachment>, last: Attachment, id: string, target: Option<string>)
    ensures LastTarget(init + [last], id, target) <==>
              if last.id == id then last.target == target else LastTarget(init, id, target)
  {
    var all := init + [last];
    assert forall i :: 0 <= i < |init| ==> all[i] == init[i];
    assert all[|init|] == last;
    if last.id == id && last.target == target {
      assert all[|init|] == Attachment(id, target);
    }
    if last.id != id && LastTarget(init, id, target) {
      var i :| 0 <= i < |init| && init[i] == Attachment(id, target) && forall j :: i < j < |init| ==> init[j].id != id;
      assert all[i] == Attachment(id, target);
    }
  }

  /* ---------- the lists ---------- */

  lemma {:induction false} DanglingMeans(
      r: Record, field: string, references: seq<string>, known: set<string>, warning: bool, d: Diagnostic)
    ensures d in Dangling(r, field, references, known, warning) <==>
              d.Diagnostic? && d == Diagnostic(CrossReference, r.id, field, d.subject, "", warning)
              && d.subject in references && d.subject !in known
  {
    if references != [] {
      var init, last := references[..|references| - 1], references[|references| - 1];
      DanglingMeans(r, field, init, known, warning, d);
      assert references == init + [last];
    }
  }

  ghost predicate Misses(r: Record, targets: map<string, Option<string>>, reference: string, other: string) {
    if reference in targets then targets[reference] == Some(other) && other != r.id else other == ""
  }

  lemma {:induction false} MisdirectedMeans(
      r: Record, code: Code, field: string, references: seq<string>, targets: map<string, Option<string>>, d: Diagnostic)
    ensures d in Misdirected(r, code, field, references, targets) <==>
              d.Diagnostic? && d == Diagnostic(code, r.id, field, d.subject, d.other, false)
              && d.subject in references && Misses(r, targets, d.subject, d.other)
  {
    if references != [] {
      var init, last := references[..|references| - 1], references[|references| - 1];
      MisdirectedMeans(r, code, field, init, targets, d);
      assert references == init + [last];
    }
  }

  lemma {:induction false} StrayMeans(code: Code, field: string, attachments: seq<Attachment>, all: set<string>, d: Diagnostic)
    ensures d in Stray(code, field, attachments, all) <==>
              d.Diagnostic? && d == Diagnostic(code, d.owner, field, d.subject, "", false)
              && Attachment(d.owner, Some(d.subject)) in attachments && d.subject !in all
  {
    if attachments != [] {
      var init, last := attachments[..|attachments| - 1], attachments[|attachments| - 1];
      StrayMeans(code, field, init, all, d);
      assert attachments == init + [last];
    }
  }

  lemma MissesMeans(r: Record, attachments: seq<Attachment>, reference: string, other: string)
    ensures Misses(r, Targets(attachments), reference, other) <==> Elsewhere(attachments, reference, r.id, other)
  {
    TargetsMean(attachments, reference, Some(other));
    hide Targets, LastTarget;
    if LastTarget(attachments, reference, Some(other)) {
      assert TargetIs(attachments, reference, Some(other));
    }
  }

  /** What the sets say of the given records. */
  ghost predicate Describes(raws: seq<Json>, k: Known) {
    (forall id :: id in k.all <==> Exists(raws, id)) && (forall id :: id in k.logical <==> ExistsAs(raws, id, "logical"))
    && (forall id :: id in k.systems <==> ExistsAs(raws, id, "physical-system"))
    && forall id :: id in k.components <==> ExistsAs(raws, id, "physical-component")
  }

  lemma KnownDescribes(raws: seq<Json>, records: seq<Record>)
    requires forall r :: r in records <==> Given(raws, r)
    ensures Describes(raws, KnownFrom(records))
  {
    hide Given, IdsOf, IdsOfKind, Claims, Systems;
    forall id ensures id in IdsOf(records) <==> Exists(raws, id) {
      IdsMean(records, id);
    }
    forall id, kind ensures id in IdsOfKind(records, kind) <==> ExistsAs(raws, id, kind) {
      KindIdsMean(records, kind, id);
    }
    hide Exists, ExistsAs;
  }

  lemma CrossLists(k: Known, side: Side, r: Record, d: Diagnostic)
    requires d.Diagnostic? && d.code == CrossReference
    ensures d in RecordDiagnostics(k, side, r) <==>
              && d.owner == r.id && d.other == "" && d.subject in Strings(r.fields, d.field)
              && ((d.field == "implements_logical" && Physical(r.kind) && d.subject !in k.logical && !d.warning)
                  || (d.field == "references_components" && r.kind == "physical-system" && d.subject !in k.components && !d.warning)
                  || (d.field == "implements_system" && r.kind == "physical-component" && d.subject !in k.systems && !d.warning)
                  || (d.field == "related_adrs" && d.subject !in k.all && d.warning))
  {
    RecordLists(k, side, r, d);
    OnlyMemberships(k, r, d);
    DanglingMeans(r, "implements_logical", Strings(r.fields, "implements_logical"), k.logical, false, d);
    DanglingMeans(r, "references_components", Strings(r.fields, "references_components"), k.components, false, d);
    DanglingMeans(r, "implements_system", Strings(r.fields, "implements_system"), k.systems, false, d);
    DanglingMeans(r, "related_adrs", Strings(r.fields, "related_adrs"), k.all, true, d);
    MisdirectedMeans(r, ReviewReference, "related_reviews", Strings(r.fields, "related_reviews"), Targets(side.reviews), d);
    MisdirectedMeans(r, OverrideReference, "related_overrides", Strings(r.fields, "related_overrides"), Targets(side.overrides), d);
    hide RecordDiagnostics, Dangling, Misdirected, Targets, Strings, TopologyDiagnostics, Misses, Physical;
  }

  lemma CrossSays(raws: seq<Json>, k: Known, side: Side, r: Record, d: Diagnostic)
    requires Describes(raws, k) && d.Diagnostic? && d.code == CrossReference
    ensures d in RecordDiagnostics(k, side, r) <==> FromRecord(raws, side, r, d)
  {
    CrossLists(k, side, r, d);
    ListsMeans(r, d.field, d.subject);
    hide RecordDiagnostics, Strings, Exists, ExistsAs, Lists, Elsewhere;
  }

  lemma AttachedSays(raws: seq<Json>, k: Known, side: Side, r: Record, d: Diagnostic)
    requires d.Diagnostic? && d.code != CrossReference && d.code != TopologyMembership
    ensures d in RecordDiagnostics(k, side, r) <==> FromRecord(raws, side, r, d)
  {
    RecordLists(k, side, r, d);
    OnlyMemberships(k, r, d);
    DanglingMeans(r, "implements_logical", Strings(r.fields, "implements_logical"), k.logical, false, d);
    DanglingMeans(r, "references_components", Strings(r.fields, "references_components"), k.components, false, d);
    DanglingMeans(r, "implements_system", Strings(r.fields, "implements_system"), k.systems, false, d);
    DanglingMeans(r, "related_adrs", Strings(r.fields, "related_adrs"), k.all, true, d);
    MisdirectedMeans(r, ReviewReference, "related_reviews", Strings(r.fields, "related_reviews"), Targets(side.reviews), d);
    MisdirectedMeans(r, OverrideReference, "related_overrides", Strings(r.fields, "related_overrides"), Targets(side.overrides), d);
    ListsMeans(r, d.field, d.subject);
    MissesMeans(r, side.reviews, d.subject, d.other);
    MissesMeans(r, side.overrides, d.subject, d.other);
    hide RecordDiagnostics, Dangling, Misdirected, Targets, Strings, TopologyDiagnostics, Broken, Lists, Elsewhere, Misses;
  }

  lemma RecordSays(raws: seq<Json>, k: Known, side: Side, r: Record, d: Diagnostic)
    requires Describes(raws, k) && !AboutMembership(d)
    ensures d in RecordDiagnostics(k, side, r) <==> FromRecord(raws, side, r, d)
  {
    hide RecordDiagnostics, Describes, Broken, Lists, Elsewhere;
    if d.Diagnostic? {
      if d.code == CrossReference {
        CrossSays(raws, k, side, r, d);
      } else {
        AttachedSays(raws, k, side, r, d);
      }
    } else {
      NoInvalid(k, side, r, d);
    }
  }

  lemma NoInvalid(k: Known, side: Side, r: Record, d: Diagnostic)
    requires d.Invalid?
    ensures d !in RecordDiagnostics(k, side, r)
  {
    RecordLists(k, side, r, d);
    OnlyMemberships(k, r, d);
    DanglingMeans(r, "implements_logical", Strings(r.fields, "implements_logical"), k.logical, false, d);
    DanglingMeans(r, "references_components", Strings(r.fields, "references_components"), k.components, false, d);
    DanglingMeans(r, "implements_system", Strings(r.fields, "implements_system"), k.systems, false, d);
    DanglingMeans(r, "related_adrs", Strings(r.fields, "related_adrs"), k.all, true, d);
    MisdirectedMeans(r, ReviewReference, "related_reviews", Strings(r.fields, "related_reviews"), Targets(side.reviews), d);
    MisdirectedMeans(r, OverrideReference, "related_overrides", Strings(r.fields, "related_overrides"), Targets(side.overrides), d);
    hide RecordDiagnostics, Dangling, Misdirected, Targets, Strings, TopologyDiagnostics, Misses;
  }

  lemma OnlyMemberships(k: Known, r: Record, d: Diagnostic)
    ensures d in TopologyDiagnostics(k, r) ==> AboutMembership(d)
  {
    if TopologySystem(r).Some? {
      UnclaimedAreMemberships(r, TopologySystem(r).value, Strings(r.fields, "topology_components"), k.claims);
    }
  }

  /* ---------- topology membership ---------- */

  /** A system of version 1.5 is held to its topology under the id that it declares. */
  ghost predicate HeldTo(r: Record, system: string) {
    r.kind == "physical-system" && Obj(r.fields).Get("schema_version") == Some(Str("1.5"))
    && Obj(r.fields).Get("system_id") == Some(Str(system))
  }

  ghost predicate DeclaredBy(raw: Json, adr: string, system: string) {
    raw.Get("id") == Some(Str(adr)) && raw.Get("kind") == Some(Str("physical-system")) && raw.Get("system_id") == Some(Str(system))
  }

  /** The last record of the ADR that declares a system declares this one. */
  ghost predicate LastDeclares(raws: seq<Json>, adr: string, system: string) {
    exists i :: 0 <= i < |raws| && DeclaredBy(raws[i], adr, system)
                && forall j, other :: i < j < |raws| ==> !DeclaredBy(raws[j], adr, other)
  }

  /** A reference stands for the system that its ADR declares, or for itself where none does. */
  ghost predicate MeansSystem(raws: seq<Json>, reference: string, system: string) {
    if exists declared :: LastDeclares(raws, reference, declared) then LastDeclares(raws, reference, system)
    else reference == system
  }

  ghost predicate Specifies(r: Record, component: string) {
    exists items: seq<Json>, item: Json :: Obj(r.fields).Get("component_specifications") == Some(Arr(items)) && item in items
      && (item.Get("id") == Some(Str(component))
          || (!(exists id :: item.Get("id") == Some(Str(id))) && item.Get("component_id") == Some(Str(component))))
  }

  /** A component record specifies the component for the system. */
  ghost predicate ProvidesFor(raws: seq<Json>, r: Record, component: string, system: string) {
    Given(raws, r) && r.kind == "physical-component" && Specifies(r, component)
    && exists reference :: Lists(r, "implements_system", reference) && MeansSystem(raws, reference, system)
  }

  /** A member of a topology that no component record provides. */
  ghost predicate Unprovided(raws: seq<Json>, r: Record, d: Diagnostic) {
    d.Diagnostic? && d == Diagnostic(TopologyMembership, r.id, "component_topology", d.subject, d.other, false)
    && HeldTo(r, d.other) && Lists(r, "topology_components", d.subject)
    && !exists p :: ProvidesFor(raws, p, d.subject, d.other)
  }

  lemma HeldMeans(r: Record, system: string)
    ensures HeldTo(r, system) <==> TopologySystem(r) == Some(system)
  {
  }

  lemma SpecifiesMeans(r: Record, component: string)
    ensures Specifies(r, component) <==>
              exists item :: item in ListAt(r.fields, "component_specifications") && ComponentId(item) == Some(component)
  {
    forall item
      ensures ComponentId(item) == Some(component) <==>
                item.Get("id") == Some(Str(component))
                || (!(exists id :: item.Get("id") == Some(Str(id))) && item.Get("component_id") == Some(Str(component)))
    {
    }
    hide ComponentId;
  }

  lemma ListedMeans(r: Record, field: string, text: string)
    ensures text in StringSet(r.fields, field) <==> Lists(r, field, text)
  {
    ListsMeans(r, field, text);
  }

  /* the mapping from ADRs to systems */

  ghost predicate DeclaresLast(records: seq<Record>, adr: string, system: string) {
    exists i :: 0 <= i < |records| && Declares(records[i], adr, system)
                && forall j, other :: i < j < |records| ==> !Declares(records[j], adr, other)
  }

  ghost predicate DeclaresNone(r: Record, adr: string) {
    forall system :: !Declares(r, adr, system)
  }

  lemma DeclaresLater(init: seq<Record>, last: Record, adr: string, system: string)
    ensures DeclaresLast(init + [last], adr, system) <==>
              Declares(last, adr, system) || (DeclaresNone(last, adr) && DeclaresLast(init, adr, system))
  {
    hide Declares;
    var all := init + [last];
    assert all[|init|] == last && forall i :: 0 <= i < |init| ==> all[i] == init[i];
    if DeclaresNone(last, adr) && DeclaresLast(init, adr, system) {
      var i :| 0 <= i < |init| && Declares(init[i], adr, system) && forall j, other :: i < j < |init| ==> !Declares(init[j], adr, other);
      assert Declares(all[i], adr, system);
    }
    if DeclaresLast(all, adr, system) && !Declares(last, adr, system) {
      var i :| 0 <= i < |all| && Declares(all[i], adr, system) && forall j, other :: i < j < |all| ==> !Declares(all[j], adr, other);
      assert Declares(init[i], adr, system);
    }
  }

  lemma {:induction false} SystemsOfRecords(records: seq<Record>, adr: string, system: string)
    ensures Maps(Systems(records), adr, system) <==> DeclaresLast(records, adr, system)
  {
    if records != [] {
      var init, last := records[..|records| - 1], records[|records| - 1];
      SystemsOfRecords(init, adr, system);
      assert records == init + [last];
      DeclaresLater(init, last, adr, system);
      hide DeclaresLast;
      var own := Text(last.fields, "system_id");
      if last.kind == "physical-system" && own.Some? && last.id == adr {
        assert Declares(last, adr, own.value);
      } else {
        assert DeclaresNone(last, adr);
      }
    }
  }

  function IdKey(r: Record): Key { (r.id, "") }

  lemma {:induction false} DeclaresInRun(records: seq<Record>, adr: string, system: string)
    ensures DeclaresLast(records, adr, system) <==> DeclaresLast(Having(IdKey, (adr, ""), records), adr, system)
  {
    if records != [] {
      var init, last := records[..|records| - 1], records[|records| - 1];
      DeclaresInRun(init, adr, system);
      assert records == init + [last];
      DeclaresLater(init, last, adr, system);
      DeclaresLater(Having(IdKey, (adr, ""), init), last, adr, system);
      hide DeclaresLast;
      if IdKey(last) != (adr, "") {
        assert Having(IdKey, (adr, ""), init) + [] == Having(IdKey, (adr, ""), init);
      }
    }
  }

  lemma SortedRun(records: seq<Record>, adr: string)
    ensures Having(IdKey, (adr, ""), Sort(ById, records)) == Having(IdKey, (adr, ""), records)
  {
    forall x, y ensures ById(x, y) == Order(IdKey)(x, y) {
      StringLeTotal(x.id, y.id);
      var a, b := IdKey(x), IdKey(y);
      assert a.0 == x.id && b.0 == y.id && a.1 == "" && b.1 == "";
      assert Order(IdKey)(x, y) == PairLe(a, b);
    }
    SortAlike(ById, Order(IdKey), records);
    SortIsStable(IdKey, (adr, ""), records);
  }

  lemma DeclaredMeansBy(raw: Json, adr: string, system: string)
    ensures DeclaredBy(raw, adr, system) <==> RecordOf(raw).Some? && Declares(RecordOf(raw).value, adr, system)
  {
  }

  lemma DeclaredLater(init: seq<Json>, last: Json, adr: string, system: string)
    ensures LastDeclares(init + [last], adr, system) <==>
              DeclaredBy(last, adr, system) || ((forall other :: !DeclaredBy(last, adr, other)) && LastDeclares(init, adr, system))
  {
    hide DeclaredBy;
    var all := init + [last];
    assert all[|init|] == last && forall i :: 0 <= i < |init| ==> all[i] == init[i];
    if (forall other :: !DeclaredBy(last, adr, other)) && LastDeclares(init, adr, system) {
      var i :| 0 <= i < |init| && DeclaredBy(init[i], adr, system) && forall j, other :: i < j < |init| ==> !DeclaredBy(init[j], adr, other);
      assert DeclaredBy(all[i], adr, system);
    }
    if LastDeclares(all, adr, system) && !DeclaredBy(last, adr, system) {
      var i :| 0 <= i < |all| && DeclaredBy(all[i], adr, system) && forall j, other :: i < j < |all| ==> !DeclaredBy(all[j], adr, other);
      assert DeclaredBy(init[i], adr, system);
    }
  }

  lemma {:induction false} DeclaresGiven(raws: seq<Json>, adr: string, system: string)
    ensures DeclaresLast(Gather(RecordsIn, raws), adr, system) <==> LastDeclares(raws, adr, system)
  {
    if raws != [] {
      var init, last := raws[..|raws| - 1], raws[|raws| - 1];
      var records := Gather(RecordsIn, init);
      DeclaresGiven(init, adr, system);
      assert raws == init + [last];
      DeclaredLater(init, last, adr, system);
      forall other ensures DeclaredBy(last, adr, other) <==> RecordOf(last).Some? && Declares(RecordOf(last).value, adr, other) {
        DeclaredMeansBy(last, adr, other);
      }
      hide LastDeclares, DeclaresLast, DeclaredBy, Declares, RecordOf;
      if RecordOf(last).Some? {
        DeclaresLater(records, RecordOf(last).value, adr, system);
      } else {
        assert records + [] == records;
      }
    }
  }

  /** The mapping gives an ADR the system that the last of its records declares which declares one. */
  lemma SystemsMean(raws: seq<Json>, adr: string, system: string)
    ensures Maps(Systems(Sort(ById, Gather(RecordsIn, raws))), adr, system) <==> LastDeclares(raws, adr, system)
  {
    var given := Gather(RecordsIn, raws);
    SystemsOfRecords(Sort(ById, given), adr, system);
    DeclaresInRun(Sort(ById, given), adr, system);
    DeclaresInRun(given, adr, system);
    SortedRun(given, adr);
    DeclaresGiven(raws, adr, system);
    hide *;
  }

  lemma ReferenceMeans(raws: seq<Json>, reference: string, system: string)
    ensures Resolved(Systems(Sort(ById, Gather(RecordsIn, raws))), reference) == system <==> MeansSystem(raws, reference, system)
  {
    var systems := Systems(Sort(ById, Gather(RecordsIn, raws)));
    forall declared ensures Maps(systems, reference, declared) <==> LastDeclares(raws, reference, declared) {
      SystemsMean(raws, reference, declared);
    }
    hide Systems, Sort, Gather, LastDeclares;
    if reference in systems {
      assert Maps(systems, reference, systems[reference]);
    }
  }

  lemma ProvidesMeans(raws: seq<Json>, p: Record, component: string, system: string)
    ensures var records := Sort(ById, Gather(RecordsIn, raws));
            p in records && ClaimedBy(Systems(records), p, component, system) <==> ProvidesFor(raws, p, component, system)
  {
    var given := Gather(RecordsIn, raws);
    SameMembers(Sort(ById, given), given, p);
    GivenMeans(raws, p);
    SpecifiesMeans(p, component);
    forall reference ensures reference in StringSet(p.fields, "implements_system") <==> Lists(p, "implements_system", reference) {
      ListedMeans(p, "implements_system", reference);
    }
    forall reference
      ensures Resolved(Systems(Sort(ById, given)), reference) == system <==> MeansSystem(raws, reference, system)
    {
      ReferenceMeans(raws, reference, system);
    }
    hide Given, Specifies, ComponentId, StringSet, Lists, MeansSystem, Systems, Resolved, Sort, Gather;
  }

  lemma TopologyMeans(raws: seq<Json>, r: Record, d: Diagnostic)
    requires d.Diagnostic?
    ensures var records := Sort(ById, Gather(RecordsIn, raws));
            d in TopologyDiagnostics(KnownFrom(records), r) <==> Unprovided(raws, r, d)
  {
    var records := Sort(ById, Gather(RecordsIn, raws));
    HeldMeans(r, d.other);
    ListedMeans(r, "topology_components", d.subject);
    forall p ensures p in records && ClaimedBy(Systems(records), p, d.subject, d.other) <==> ProvidesFor(raws, p, d.subject, d.other) {
      ProvidesMeans(raws, p, d.subject, d.other);
    }
    hide Sort, Gather, Systems, ClaimedBy, ProvidesFor, StringSet, Strings, Lists, HeldTo, KnownFrom, Unclaimed;
    if TopologySystem(r).Some? {
      var system := TopologySystem(r).value;
      UnclaimedAreMemberships(r, system, Strings(r.fields, "topology_components"), KnownFrom(records).claims);
      MembershipExactly(records, r, d.subject);
    }
    hide TopologySystem;
  }

  /**
   * Topology membership, in the list that validation returns, for all values: it holds exactly the diagnostics
   * about a member of some system's topology that no component record provides for that system, where a
   * reference to an ADR stands for the system that the ADR declares.
   */
  lemma MembershipReported(raws: seq<Json>, side: Side, d: Diagnostic)
    requires AboutMembership(d)
    ensures d in Diagnostics(raws, side) <==> exists r :: Given(raws, r) && Unprovided(raws, r, d)
  {
    var given := Gather(RecordsIn, raws);
    var records := Sort(ById, given);
    OnlyRecordsSpeak(raws, side, d);
    MembershipIsDiagnostic(d);
    hide *;
    forall r ensures r in records && d in RecordDiagnostics(KnownFrom(records), side, r) <==> Given(raws, r) && Unprovided(raws, r, d) {
      SameMembers(records, given, r);
      GivenMeans(raws, r);
      OnlyTopology(KnownFrom(records), side, r, d);
      TopologyMeans(raws, r, d);
    }
  }

  /* ---------- the whole list ---------- */

  /** Two of the given records have one id. */
  ghost predicate RepeatedId(raws: seq<Json>) {
    exists i, j, id :: 0 <= i < j < |raws| && IsRecord(raws[i], id) && IsRecord(raws[j], id)
  }

  ghost predicate IsRecord(raw: Json, id: string) {
    raw.Get("id") == Some(Str(id)) && exists kind :: raw.Get("kind") == Some(Str(kind))
  }

  ghost predicate OfRepeatedIds(raws: seq<Json>, d: Diagnostic) {
    d == Diagnostic(DuplicateIds, "", "", "", "", false) && RepeatedId(raws)
  }

  lemma IsRecordMeans(raw: Json, id: string)
    ensures IsRecord(raw, id) <==> RecordOf(raw).Some? && RecordOf(raw).value.id == id
  {
  }

  lemma {:induction false} RepeatedMeans(raws: seq<Json>)
    ensures RepeatedId(raws) <==> !DistinctBy(IdOf, Gather(RecordsIn, raws))
  {
    if raws != [] {
      var n := |raws| - 1;
      var init, last := raws[..n], raws[n];
      RepeatedMeans(init);
      var records := Gather(RecordsIn, init);
      forall id ensures IsRecord(last, id) <==> RecordOf(last).Some? && RecordOf(last).value.id == id {
        IsRecordMeans(last, id);
      }
      RepeatedLater(raws);
      assert Gather(RecordsIn, raws) == records + RecordsIn(last);
      hide RecordOf, IsRecord, RepeatedId, Gather, DistinctBy;
      assert forall i :: 0 <= i < n ==> init[i] == raws[i];
      if RecordOf(last).Some? {
        var r := RecordOf(last).value;
        LastDistinct(records, r);
        EarlierIds(init, r.id);
        if x :| x in records && x.id == r.id {
          var i :| 0 <= i < |init| && IsRecord(init[i], r.id);
          assert IsRecord(raws[i], r.id) && IsRecord(raws[n], r.id);
        }
      } else {
        assert records + [] == records;
      }
    }
  }

  lemma RepeatedLater(raws: seq<Json>)
    requires raws != []
    ensures var n := |raws| - 1;
            RepeatedId(raws) <==> RepeatedId(raws[..n]) || exists i, id :: 0 <= i < n && IsRecord(raws[i], id) && IsRecord(raws[n], id)
  {
    hide IsRecord;
    var n := |raws| - 1;
    if i, j, id :| 0 <= i < j < |raws| && IsRecord(raws[i], id) && IsRecord(raws[j], id) {
      if j < n {
        assert IsRecord(raws[..n][i], id) && IsRecord(raws[..n][j], id);
      }
    }
    if RepeatedId(raws[..n]) {
      var i, j, id :| 0 <= i < j < n && IsRecord(raws[..n][i], id) && IsRecord(raws[..n][j], id);
      assert IsRecord(raws[i], id) && IsRecord(raws[j], id);
    }
  }

  lemma LastDistinct(records: seq<Record>, r: Record)
    ensures DistinctBy(IdOf, records + [r]) <==> DistinctBy(IdOf, records) && forall x :: x in records ==> x.id != r.id
  {
    var all := records + [r];
    assert all[|records|] == r && forall i :: 0 <= i < |records| ==> all[i] == records[i];
    if DistinctBy(IdOf, all) {
      assert forall i :: 0 <= i < |records| ==> IdOf(all[i]) != IdOf(all[|records|]);
    }
  }

  lemma EarlierIds(raws: seq<Json>, id: string)
    ensures (exists x :: x in Gather(RecordsIn, raws) && x.id == id) <==> exists i :: 0 <= i < |raws| && IsRecord(raws[i], id)
  {
    forall x ensures x in Gather(RecordsIn, raws) <==> exists raw :: raw in raws && x in RecordsIn(raw) {
      GatherMembers(RecordsIn, raws, x);
    }
    forall raw ensures IsRecord(raw, id) <==> exists x :: x in RecordsIn(raw) && x.id == id {
      IsRecordMeans(raw, id);
      if IsRecord(raw, id) {
        assert RecordOf(raw).value in RecordsIn(raw);
      }
      hide RecordOf;
    }
    hide RecordsIn, IsRecord, Gather;
    if i :| 0 <= i < |raws| && IsRecord(raws[i], id) {
      var x :| x in RecordsIn(raws[i]) && x.id == id;
      assert x in Gather(RecordsIn, raws);
    }
  }

  lemma {:induction false} DuplicatesMean(records: seq<Record>, d: Diagnostic)
    ensures d in Duplicates(records) <==> d == Diagnostic(DuplicateIds, "", "", "", "", false) && !DistinctBy(IdOf, records)
  {
    if records != [] {
      var n := |records| - 1;
      assert records == records[..n] + [records[n]];
      DuplicatesMean(records[..n], d);
      LastDistinct(records[..n], records[n]);
      IdsMean(records[..n], records[n].id);
    }
  }

  /** One diagnostic for every record beyond the first of its id. */
  lemma {:induction false} DuplicatesCount(records: seq<Record>)
    ensures |Duplicates(records)| + |IdsOf(records)| == |records|
  {
    if records != [] {
      var n := |records| - 1;
      DuplicatesCount(records[..n]);
      IdsStep(records, n);
      assert records[..n + 1] == records;
      var ids, id := IdsOf(records[..n]), records[n].id;
      assert id !in ids ==> |ids + {id}| == |ids| + 1;
      assert id in ids ==> ids + {id} == ids;
    }
  }

  /** Diagnostics other than those on topologies, exactly, for all values. */
  lemma OtherDiagnostics(raws: seq<Json>, side: Side, d: Diagnostic)
    requires !AboutMembership(d)
    ensures d in Diagnostics(raws, side) <==>
              Malformed(raws, d) || OfRepeatedIds(raws, d) || (exists r :: Given(raws, r) && FromRecord(raws, side, r, d)) || FromSide(raws, side, d)
  {
    var records := Sort(ById, Gather(RecordsIn, raws));
    RepeatedMeans(raws);
    DistinctAlike(Gather(RecordsIn, raws), records);
    DuplicatesMean(records, d);
    FaultsMean(raws, d);
    hide Sort, Gather, DistinctBy, Malformed, RepeatedId;
    forall r ensures r in records <==> Given(raws, r) {
      SameMembers(records, Gather(RecordsIn, raws), r);
      GivenMeans(raws, r);
    }
    KnownDescribes(raws, records);
    FromSomeRecord(KnownFrom(records), side, records, d);
    hide Faults, Duplicates, RecordsIn, Given, KnownFrom, RecordDiagnostics, FromRecord, AboutMembership, Describes;
    forall r ensures r in records && d in RecordDiagnostics(KnownFrom(records), side, r) <==> Given(raws, r) && FromRecord(raws, side, r, d) {
      RecordSays(raws, KnownFrom(records), side, r, d);
    }
    SideSays(raws, side, records, d);
    hide FromSide, AllRecordDiagnostics, SideDiagnostics;
    ListsOf(raws, side, d);
  }

  lemma ListsOf(raws: seq<Json>, side: Side, d: Diagnostic)
    ensures var records := Sort(ById, Gather(RecordsIn, raws));
            d in Diagnostics(raws, side) <==>
              || d in Faults(raws) || d in Duplicates(records) || d in AllRecordDiagnostics(KnownFrom(records), side, records)
              || d in SideDiagnostics(IdsOf(records), side)
  {
    hide Sort, Gather, Faults, Duplicates, AllRecordDiagnostics, SideDiagnostics, KnownFrom, IdsOf;
  }

  lemma DistinctAlike(s: seq<Record>, t: seq<Record>)
    requires multiset(s) == multiset(t)
    ensures DistinctBy(IdOf, s) <==> DistinctBy(IdOf, t)
  {
    hide DistinctBy;
    if DistinctBy(IdOf, s) {
      DistinctByPermuted(IdOf, s, t);
    }
    if DistinctBy(IdOf, t) {
      DistinctByPermuted(IdOf, t, s);
    }
  }

  lemma SideSays(raws: seq<Json>, side: Side, records: seq<Record>, d: Diagnostic)
    requires forall r :: r in records <==> Given(raws, r)
    ensures d in SideDiagnostics(IdsOf(records), side) <==> FromSide(raws, side, d)
  {
    StrayMeans(ReviewReference, "target_adr", side.reviews, IdsOf(records), d);
    StrayMeans(OverrideReference, "related_adr", side.overrides, IdsOf(records), d);
    if d.Diagnostic? {
      IdsMean(records, d.subject);
    }
    hide Given, Stray, IdsOf;
  }

  /**
   * Reference validation, exactly, for all values: the list holds a diagnostic if and only if a value is no
   * record, an id is repeated, a field of some record names what is not there or belongs elsewhere, a member
   * of a topology is provided by no component, or a review or an override is about a record that is not there.
   */
  lemma DiagnosticsExactly(raws: seq<Json>, side: Side, d: Diagnostic)
    ensures d in Diagnostics(raws, side) <==>
              || Malformed(raws, d) || OfRepeatedIds(raws, d)
              || (exists r :: Given(raws, r) && (FromRecord(raws, side, r, d) || Unprovided(raws, r, d))) || FromSide(raws, side, d)
  {
    hide Diagnostics, Given, Gather, RecordsIn;
    if AboutMembership(d) {
      MembershipReported(raws, side, d);
      NotOtherwise(raws, side, d);
    } else {
      OtherDiagnostics(raws, side, d);
      NeverUnprovided(raws, d);
    }
    hide FromRecord, Unprovided, FromSide, Malformed, OfRepeatedIds;
  }

  lemma NotOtherwise(raws: seq<Json>, side: Side, d: Diagnostic)
    requires AboutMembership(d)
    ensures !FromSide(raws, side, d) && !Malformed(raws, d) && !OfRepeatedIds(raws, d) && forall r :: !FromRecord(raws, side, r, d)
  {
  }

  lemma NeverUnprovided(raws: seq<Json>, d: Diagnostic)
    requires !AboutMembership(d)
    ensures forall r :: !Unprovided(raws, r, d)
  {
    hide Given;
  }

  /* ---------- malformed values and repeated ids ---------- */

  /** The value at this place is no record: it is no object, or lacks an id or a kind. */
  ghost predicate Malformed(raws: seq<Json>, d: Diagnostic) {
    d.Invalid? && d.index < |raws|
    && var raw := raws[d.index];
       && (d.field == "" <==> !raw.Obj?)
       && (d.field == "id" <==> raw.Obj? && !exists id :: raw.Get("id") == Some(Str(id)))
       && (d.field in {"", "id"} || (d.field == "kind" && !exists kind :: raw.Get("kind") == Some(Str(kind))))
  }

  lemma {:induction false} FaultsMean(raws: seq<Json>, d: Diagnostic)
    ensures d in Faults(raws) <==> Malformed(raws, d)
  {
    if raws != [] {
      var n := |raws| - 1;
      FaultsMean(raws[..n], d);
      if d.Invalid? && d.index < n {
        assert raws[..n][d.index] == raws[d.index];
      }
      if d.Invalid? && d.index == n {
        FaultMeans(raws[n], n, d);
      }
    }
  }

  lemma FaultMeans(raw: Json, i: nat, d: Diagnostic)
    requires d.Invalid? && d.index == i
    ensures RecordOf(raw).None? && d == Fault(raw, i) <==>
              && (d.field == "" <==> !raw.Obj?)
              && (d.field == "id" <==> raw.Obj? && !exists id :: raw.Get("id") == Some(Str(id)))
              && (d.field in {"", "id"} || (d.field == "kind" && !exists kind :: raw.Get("kind") == Some(Str(kind))))
  {
  }
}
