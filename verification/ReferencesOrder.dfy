/**
 * The order of the diagnostics of reference validation, for all values: malformed values, repeated ids, the
 * records by id, each with its fields in a fixed order and the members of a field by name, then reviews and
 * overrides as they were given.
 */
module ReferencesOrder {
  import opened Prelude
  import opened Ordering
  import opened Grouping
  import opened References
  import opened ReferencesResult

  /* ---------- what stands before what ---------- */

  ghost predicate Earlier(attachments: seq<Attachment>, d: Diagnostic, e: Diagnostic) {
    d.Diagnostic? && e.Diagnostic?
    && exists a, b :: 0 <= a < b < |attachments| && attachments[a] == Attachment(d.owner, Some(d.subject))
                      && attachments[b] == Attachment(e.owner, Some(e.subject))
  }

  /** The part of the list that a diagnostic belongs to. */
  ghost function Section(d: Diagnostic): nat {
    if d.Invalid? then 0 else if d.code == DuplicateIds then 1 else if d.field == "target_adr" then 3 else if d.field == "related_adr" then 4 else 2
  }

  /** The fields of a record in the order in which they are checked. */
  ghost function Rank(field: string): nat {
    if field == "implements_logical" then 0 else if field == "references_components" then 1
    else if field == "implements_system" then 2 else if field == "related_adrs" then 3
    else if field == "related_reviews" then 4 else if field == "related_overrides" then 5 else 6
  }

  /** Within one record: by field, and within a field by name. */
  ghost predicate WithinRecord(d: Diagnostic, e: Diagnostic) {
    d.Diagnostic? && e.Diagnostic?
    && (Rank(d.field) < Rank(e.field) || (d.field == e.field && d.subject != e.subject && StringLe(d.subject, e.subject)))
  }

  ghost predicate Precedes(raws: seq<Json>, side: Side, d: Diagnostic, e: Diagnostic) {
    Section(d) < Section(e)
    || (d.Invalid? && e.Invalid? && d.index < e.index)
    || (Section(d) == 1 && d == e)
    || (Section(d) == 2 && Section(e) == 2 && StringLe(d.owner, e.owner) && (d.owner == e.owner && !RepeatedId(raws) ==> WithinRecord(d, e)))
    || (Section(d) == 3 && Section(e) == 3 && Earlier(side.reviews, d, e))
    || (Section(d) == 4 && Section(e) == 4 && Earlier(side.overrides, d, e))
  }

  ghost predicate InOrder(raws: seq<Json>, side: Side, s: seq<Diagnostic>) {
    forall i, j :: 0 <= i < j < |s| ==> Precedes(raws, side, s[i], s[j])
  }

  lemma OrderJoin(raws: seq<Json>, side: Side, s: seq<Diagnostic>, t: seq<Diagnostic>)
    requires InOrder(raws, side, s) && InOrder(raws, side, t) && forall d, e :: d in s && e in t ==> Precedes(raws, side, d, e)
    ensures InOrder(raws, side, s + t)
  {
    hide Precedes;
    forall i, j | 0 <= i < j < |s + t| ensures Precedes(raws, side, (s + t)[i], (s + t)[j]) {
      if i < |s| <= j {
        assert s[i] in s && t[j - |s|] in t;
      }
    }
  }

  lemma NothingInOrder(raws: seq<Json>, side: Side)
    ensures InOrder(raws, side, [])
  {
  }

  /* ---------- one list of a record ---------- */

  /** Diagnostics of one field of a record, sorted by their subjects, which differ. */
  ghost predicate OfField(r: Record, field: string, s: seq<Diagnostic>) {
    (forall d :: d in s ==> d.Diagnostic? && d.code != DuplicateIds && d.owner == r.id && d.field == field)
    && forall i, j :: 0 <= i < j < |s| ==> s[i] in s && s[j] in s && s[i].subject != s[j].subject && StringLe(s[i].subject, s[j].subject)
  }

  ghost predicate Increasing(references: seq<string>) {
    forall i, j :: 0 <= i < j < |references| ==> references[i] != references[j] && StringLe(references[i], references[j])
  }

  lemma OneMore(r: Record, field: string, s: seq<Diagnostic>, references: seq<string>, d: Diagnostic)
    requires references != [] && Increasing(references) && OfField(r, field, s)
    requires forall x :: x in s ==> x.subject in references[..|references| - 1]
    requires d.Diagnostic? && d.code != DuplicateIds && d.owner == r.id && d.field == field && d.subject == references[|references| - 1]
    ensures OfField(r, field, s + [d])
  {
    hide StringLe;
    var n, t := |references| - 1, s + [d];
    forall i, j | 0 <= i < j < |t| ensures t[i].Diagnostic? && t[j].Diagnostic? && t[i].subject != t[j].subject && StringLe(t[i].subject, t[j].subject) {
      assert s[i] in s;
      if j == |s| {
        var k :| 0 <= k < n && references[..n][k] == s[i].subject;
        assert references[k] == s[i].subject;
      }
    }
  }

  lemma {:induction false} DanglingInOrder(r: Record, field: string, references: seq<string>, known: set<string>, warning: bool)
    requires Increasing(references)
    ensures OfField(r, field, Dangling(r, field, references, known, warning))
    ensures forall d :: d in Dangling(r, field, references, known, warning) ==> d.Diagnostic? && d.subject in references
  {
    if references != [] {
      var n := |references| - 1;
      assert references == references[..n] + [references[n]];
      DanglingInOrder(r, field, references[..n], known, warning);
      var before := Dangling(r, field, references[..n], known, warning);
      hide OfField, Increasing;
      if references[n] !in known {
        OneMore(r, field, before, references, Diagnostic(CrossReference, r.id, field, references[n], "", warning));
      } else {
        assert before + [] == before;
      }
    }
  }

  lemma {:induction false} MisdirectedInOrder(
      r: Record, code: Code, field: string, references: seq<string>, targets: map<string, Option<string>>)
    requires Increasing(references) && code != DuplicateIds
    ensures OfField(r, field, Misdirected(r, code, field, references, targets))
    ensures forall d :: d in Misdirected(r, code, field, references, targets) ==> d.Diagnostic? && d.subject in references
  {
    if references != [] {
      var n := |references| - 1;
      var last := references[n];
      assert references == references[..n] + [last];
      MisdirectedInOrder(r, code, field, references[..n], targets);
      var before := Misdirected(r, code, field, references[..n], targets);
      hide OfField, Increasing;
      if last !in targets {
        OneMore(r, field, before, references, Diagnostic(code, r.id, field, last, "", false));
      } else if targets[last].Some? && targets[last].value != r.id {
        OneMore(r, field, before, references, Diagnostic(code, r.id, field, last, targets[last].value, false));
      } else {
        assert before + [] == before;
      }
    }
  }

  lemma {:induction false} UnclaimedInOrder(r: Record, system: string, components: seq<string>, claims: map<string, set<string>>)
    requires Increasing(components)
    ensures OfField(r, "component_topology", Unclaimed(r, system, components, claims))
    ensures forall d :: d in Unclaimed(r, system, components, claims) ==> d.Diagnostic? && d.subject in components
  {
    if components != [] {
      var n := |components| - 1;
      var last := components[n];
      assert components == components[..n] + [last];
      UnclaimedInOrder(r, system, components[..n], claims);
      var before := Unclaimed(r, system, components[..n], claims);
      hide OfField, Increasing;
      if system !in SystemsOf(claims, last) {
        OneMore(r, "component_topology", before, components, Diagnostic(TopologyMembership, r.id, "component_topology", last, system, false));
      } else {
        assert before + [] == before;
      }
    }
  }

  lemma StringsIncrease(fields: Fields, key: string)
    ensures Increasing(Strings(fields, key))
  {
  }

  /* ---------- the lists of a record ---------- */

  /** Diagnostics of a record, in the order of its fields; the ranks lie within bounds. */
  ghost predicate OfRecord(r: Record, s: seq<Diagnostic>, low: nat, high: nat) {
    (forall d :: d in s ==> d.Diagnostic? && Section(d) == 2 && d.owner == r.id && low <= Rank(d.field) <= high)
    && forall i, j :: 0 <= i < j < |s| ==> WithinRecord(s[i], s[j])
  }

  lemma FieldOfRecord(r: Record, field: string, s: seq<Diagnostic>, rank: nat)
    requires OfField(r, field, s) && rank == Rank(field) && field != "target_adr" && field != "related_adr"
    ensures OfRecord(r, s, rank, rank)
  {
    hide StringLe;
    forall i, j | 0 <= i < j < |s| ensures WithinRecord(s[i], s[j]) {
      assert s[i] in s && s[j] in s;
    }
  }

  lemma RecordJoin(r: Record, s: seq<Diagnostic>, low: nat, mid: nat, t: seq<Diagnostic>, above: nat, high: nat)
    requires OfRecord(r, s, low, mid) && OfRecord(r, t, above, high) && low <= mid < above <= high
    ensures OfRecord(r, s + t, low, high)
  {
    hide Section, Rank, StringLe;
    forall i, j | 0 <= i < j < |s + t| ensures WithinRecord((s + t)[i], (s + t)[j]) {
      if i < |s| <= j {
        assert s[i] in s && t[j - |s|] in t;
      }
    }
  }

  lemma WhenOfRecord(r: Record, condition: bool, s: seq<Diagnostic>, rank: nat)
    requires OfRecord(r, s, rank, rank)
    ensures OfRecord(r, When(condition, s), rank, rank)
  {
  }

  lemma CrossOfRecord(k: Known, r: Record)
    ensures OfRecord(r,
              When(Physical(r.kind), Dangling(r, "implements_logical", Strings(r.fields, "implements_logical"), k.logical, false))
              + When(r.kind == "physical-system",
                  Dangling(r, "references_components", Strings(r.fields, "references_components"), k.components, false))
              + When(r.kind == "physical-component", Dangling(r, "implements_system", Strings(r.fields, "implements_system"), k.systems, false))
              + Dangling(r, "related_adrs", Strings(r.fields, "related_adrs"), k.all, true), 0, 3)
  {
    var logical := Dangling(r, "implements_logical", Strings(r.fields, "implements_logical"), k.logical, false);
    var components := Dangling(r, "references_components", Strings(r.fields, "references_components"), k.components, false);
    var systems := Dangling(r, "implements_system", Strings(r.fields, "implements_system"), k.systems, false);
    var related := Dangling(r, "related_adrs", Strings(r.fields, "related_adrs"), k.all, true);
    DanglingOfRecord(r, "implements_logical", k.logical, false, 0);
    DanglingOfRecord(r, "references_components", k.components, false, 1);
    DanglingOfRecord(r, "implements_system", k.systems, false, 2);
    DanglingOfRecord(r, "related_adrs", k.all, true, 3);
    hide *;
    WhenOfRecord(r, Physical(r.kind), logical, 0);
    WhenOfRecord(r, r.kind == "physical-system", components, 1);
    WhenOfRecord(r, r.kind == "physical-component", systems, 2);
    var s := When(Physical(r.kind), logical);
    RecordJoin(r, s, 0, 0, When(r.kind == "physical-system", components), 1, 1);
    s := s + When(r.kind == "physical-system", components);
    RecordJoin(r, s, 0, 1, When(r.kind == "physical-component", systems), 2, 2);
    s := s + When(r.kind == "physical-component", systems);
    RecordJoin(r, s, 0, 2, related, 3, 3);
  }

  lemma DanglingOfRecord(r: Record, field: string, known: set<string>, warning: bool, rank: nat)
    requires rank == Rank(field) && field != "target_adr" && field != "related_adr"
    ensures OfRecord(r, Dangling(r, field, Strings(r.fields, field), known, warning), rank, rank)
  {
    StringsIncrease(r.fields, field);
    DanglingInOrder(r, field, Strings(r.fields, field), known, warning);
    hide Strings, Dangling, OfField, OfRecord, Rank;
    FieldOfRecord(r, field, Dangling(r, field, Strings(r.fields, field), known, warning), rank);
  }

  lemma MisdirectedOfRecord(r: Record, code: Code, field: string, targets: map<string, Option<string>>, rank: nat)
    requires rank == Rank(field) && field != "target_adr" && field != "related_adr" && code != DuplicateIds
    ensures OfRecord(r, Misdirected(r, code, field, Strings(r.fields, field), targets), rank, rank)
  {
    StringsIncrease(r.fields, field);
    MisdirectedInOrder(r, code, field, Strings(r.fields, field), targets);
    hide Strings, Misdirected, OfField, OfRecord, Rank;
    FieldOfRecord(r, field, Misdirected(r, code, field, Strings(r.fields, field), targets), rank);
  }

  lemma TopologyOfRecord(k: Known, r: Record)
    ensures OfRecord(r, TopologyDiagnostics(k, r), 6, 6)
  {
    match TopologySystem(r)
    case None =>
    case Some(system) =>
      var components := Strings(r.fields, "topology_components");
      StringsIncrease(r.fields, "topology_components");
      UnclaimedInOrder(r, system, components, k.claims);
      hide Strings, Unclaimed, OfField, OfRecord;
      FieldOfRecord(r, "component_topology", Unclaimed(r, system, components, k.claims), 6);
  }

  lemma RecordInOrder(k: Known, side: Side, r: Record)
    ensures OfRecord(r, RecordDiagnostics(k, side, r), 0, 6)
  {
    var cross := When(Physical(r.kind), Dangling(r, "implements_logical", Strings(r.fields, "implements_logical"), k.logical, false))
              + When(r.kind == "physical-system",
                  Dangling(r, "references_components", Strings(r.fields, "references_components"), k.components, false))
              + When(r.kind == "physical-component", Dangling(r, "implements_system", Strings(r.fields, "implements_system"), k.systems, false))
              + Dangling(r, "related_adrs", Strings(r.fields, "related_adrs"), k.all, true);
    var reviews := Misdirected(r, ReviewReference, "related_reviews", Strings(r.fields, "related_reviews"), Targets(side.reviews));
    var overrides := Misdirected(r, OverrideReference, "related_overrides", Strings(r.fields, "related_overrides"), Targets(side.overrides));
    assert RecordDiagnostics(k, side, r) == cross + reviews + overrides + TopologyDiagnostics(k, r);
    CrossOfRecord(k, r);
    MisdirectedOfRecord(r, ReviewReference, "related_reviews", Targets(side.reviews), 4);
    MisdirectedOfRecord(r, OverrideReference, "related_overrides", Targets(side.overrides), 5);
    TopologyOfRecord(k, r);
    hide *;
    RecordJoin(r, cross, 0, 3, reviews, 4, 4);
    RecordJoin(r, cross + reviews, 0, 4, overrides, 5, 5);
    RecordJoin(r, cross + reviews + overrides, 0, 5, TopologyDiagnostics(k, r), 6, 6);
  }

  /* ---------- the whole list ---------- */

  lemma {:induction false} FaultsInOrder(all: seq<Json>, side: Side, raws: seq<Json>)
    ensures InOrder(all, side, Faults(raws)) && forall d :: d in Faults(raws) ==> d.Invalid? && d.index < |raws|
  {
    NothingInOrder(all, side);
    if raws != [] {
      var n := |raws| - 1;
      FaultsInOrder(all, side, raws[..n]);
      hide InOrder, RecordOf, StringLe;
      var last := if RecordOf(raws[n]).None? then [Fault(raws[n], n)] else [];
      assert InOrder(all, side, last) by { AtMostOne(all, side, last); }
      OrderJoin(all, side, Faults(raws[..n]), last);
    }
  }

  lemma AtMostOne(raws: seq<Json>, side: Side, s: seq<Diagnostic>)
    requires |s| <= 1
    ensures InOrder(raws, side, s)
  {
  }

  lemma DuplicatesInOrder(raws: seq<Json>, side: Side, records: seq<Record>)
    ensures InOrder(raws, side, Duplicates(records)) && forall d :: d in Duplicates(records) ==> Section(d) == 1
  {
    var s := Duplicates(records);
    forall d | d in s ensures d == Diagnostic(DuplicateIds, "", "", "", "", false) {
      DuplicatesMean(records, d);
    }
    hide Duplicates, StringLe;
    forall i, j | 0 <= i < j < |s| ensures Precedes(raws, side, s[i], s[j]) {
      assert s[i] in s && s[j] in s;
    }
  }

  lemma OneRecordInOrder(raws: seq<Json>, k: Known, side: Side, r: Record)
    ensures InOrder(raws, side, RecordDiagnostics(k, side, r))
    ensures forall d :: d in RecordDiagnostics(k, side, r) ==> d.Diagnostic? && Section(d) == 2 && d.owner == r.id
  {
    RecordInOrder(k, side, r);
    var s := RecordDiagnostics(k, side, r);
    hide RecordDiagnostics, Section, WithinRecord;
    StringLeTotal(r.id, r.id);
    forall i, j | 0 <= i < j < |s| ensures Precedes(raws, side, s[i], s[j]) {
      assert s[i] in s && s[j] in s;
    }
  }

  lemma {:induction false} RecordsInOrder(raws: seq<Json>, k: Known, side: Side, records: seq<Record>, n: nat)
    requires n <= |records| && Sorted(ById, records) && (!RepeatedId(raws) ==> DistinctBy(IdOf, records))
    ensures InOrder(raws, side, AllRecordDiagnostics(k, side, records[..n]))
    ensures forall d :: d in AllRecordDiagnostics(k, side, records[..n]) ==>
              d.Diagnostic? && Section(d) == 2 && exists i :: 0 <= i < n && records[i].id == d.owner
  {
    hide InOrder, RecordDiagnostics, Section, WithinRecord, RepeatedId;
    NothingInOrder(raws, side);
    if n > 0 {
      RecordsInOrder(raws, k, side, records, n - 1);
      assert records[..n][..n - 1] == records[..n - 1];
      OneRecordInOrder(raws, k, side, records[n - 1]);
      var before, last := AllRecordDiagnostics(k, side, records[..n - 1]), RecordDiagnostics(k, side, records[n - 1]);
      forall d, e | d in before && e in last ensures Precedes(raws, side, d, e) {
        var i :| 0 <= i < n - 1 && records[i].id == d.owner;
        assert ById(records[i], records[n - 1]);
        assert !RepeatedId(raws) ==> IdOf(records[i]) != IdOf(records[n - 1]);
      }
      OrderJoin(raws, side, before, last);
    }
  }

  ghost predicate FromAttachment(code: Code, field: string, attachments: seq<Attachment>, n: nat, d: Diagnostic) {
    d.Diagnostic? && d.code == code && d.field == field
    && exists i :: 0 <= i < n && i < |attachments| && attachments[i] == Attachment(d.owner, Some(d.subject))
  }

  lemma {:induction false} StrayInOrder(
      raws: seq<Json>, side: Side, code: Code, field: string, attachments: seq<Attachment>, all: set<string>, n: nat)
    requires n <= |attachments|
    requires (code == ReviewReference && field == "target_adr" && attachments == side.reviews)
             || (code == OverrideReference && field == "related_adr" && attachments == side.overrides)
    ensures InOrder(raws, side, Stray(code, field, attachments[..n], all))
    ensures forall d :: d in Stray(code, field, attachments[..n], all) ==> FromAttachment(code, field, attachments, n, d)
  {
    NothingInOrder(raws, side);
    hide InOrder, RepeatedId, StringLe;
    if n > 0 {
      var last := attachments[n - 1];
      StrayInOrder(raws, side, code, field, attachments, all, n - 1);
      assert attachments[..n][..n - 1] == attachments[..n - 1];
      var before := Stray(code, field, attachments[..n - 1], all);
      var added := if last.target.None? || last.target.value in all then [] else [Diagnostic(code, last.id, field, last.target.value, "", false)];
      AtMostOne(raws, side, added);
      forall d, e | d in before && e in added ensures Precedes(raws, side, d, e) {
        var i :| 0 <= i < n - 1 && attachments[i] == Attachment(d.owner, Some(d.subject));
        assert attachments[n - 1] == Attachment(e.owner, Some(e.subject));
        assert Earlier(attachments, d, e);
      }
      OrderJoin(raws, side, before, added);
    }
  }

  lemma SideInOrder(raws: seq<Json>, side: Side, all: set<string>)
    ensures InOrder(raws, side, SideDiagnostics(all, side)) && forall d :: d in SideDiagnostics(all, side) ==> Section(d) >= 3
  {
    hide InOrder, Stray, RepeatedId, StringLe;
    StrayInOrder(raws, side, ReviewReference, "target_adr", side.reviews, all, |side.reviews|);
    StrayInOrder(raws, side, OverrideReference, "related_adr", side.overrides, all, |side.overrides|);
    assert side.reviews[..|side.reviews|] == side.reviews && side.overrides[..|side.overrides|] == side.overrides;
    OrderJoin(raws, side, Stray(ReviewReference, "target_adr", side.reviews, all), Stray(OverrideReference, "related_adr", side.overrides, all));
  }

  /** The whole list stands in order, for all values, reviews and overrides. */
  lemma DiagnosticsInOrder(raws: seq<Json>, side: Side)
    ensures InOrder(raws, side, Diagnostics(raws, side))
  {
    var given := Gather(RecordsIn, raws);
    var records := Sort(ById, given);
    IdOrder();
    SortSorted(ById, given);
    RepeatedMeans(raws);
    DistinctAlike(given, records);
    FaultsInOrder(raws, side, raws);
    DuplicatesInOrder(raws, side, records);
    RecordsInOrder(raws, KnownFrom(records), side, records, |records|);
    SideInOrder(raws, side, IdsOf(records));
    assert records[..|records|] == records;
    hide *;
    InFour(raws, side, Faults(raws), Duplicates(records), AllRecordDiagnostics(KnownFrom(records), side, records),
      SideDiagnostics(IdsOf(records), side));
    ListIs(raws, side);
  }

  lemma ListIs(raws: seq<Json>, side: Side)
    ensures var records := Sort(ById, Gather(RecordsIn, raws));
            Diagnostics(raws, side) == Faults(raws) + Duplicates(records) + AllRecordDiagnostics(KnownFrom(records), side, records)
                                       + SideDiagnostics(IdsOf(records), side)
  {
  }

  lemma InFour(
      raws: seq<Json>, side: Side, faults: seq<Diagnostic>, duplicates: seq<Diagnostic>, found: seq<Diagnostic>, sides: seq<Diagnostic>)
    requires InOrder(raws, side, faults) && InOrder(raws, side, duplicates) && InOrder(raws, side, found) && InOrder(raws, side, sides)
    requires (forall d :: d in faults ==> d.Invalid?) && (forall d :: d in duplicates ==> Section(d) == 1)
    requires (forall d :: d in found ==> Section(d) == 2) && (forall d :: d in sides ==> Section(d) >= 3)
    ensures InOrder(raws, side, faults + duplicates + found + sides)
  {
    assert forall d :: d in faults ==> Section(d) == 0;
    hide InOrder, Section;
    SectionsInOrder(raws, side, faults, duplicates);
    OrderJoin(raws, side, faults, duplicates);
    SectionsInOrder(raws, side, faults + duplicates, found);
    OrderJoin(raws, side, faults + duplicates, found);
    SectionsInOrder(raws, side, faults + duplicates + found, sides);
    OrderJoin(raws, side, faults + duplicates + found, sides);
  }

  lemma SectionsInOrder(raws: seq<Json>, side: Side, s: seq<Diagnostic>, t: seq<Diagnostic>)
    requires forall d, e :: d in s && e in t ==> Section(d) < Section(e)
    ensures forall d, e :: d in s && e in t ==> Precedes(raws, side, d, e)
  {
    hide Section;
  }
}
