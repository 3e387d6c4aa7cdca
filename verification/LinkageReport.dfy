/**
 * What a linkage report says, in terms of the claims: which diagnostics a claim gets, what a link shows of the
 * claims of its group, and in which order the links stand.
 */
module LinkageReport {
  import opened Prelude
  import opened Ordering
  import opened Strings
  import opened StableMerge
  import opened Grouping
  import opened Linkage
  import opened LinkageLaws
  import opened LinkageSoundness
  import opened LinkageSuccess
  import opened LinkageOrder
  import opened LinkageLinks

  /* ---------- the diagnostics of one claim ---------- */

  /** The first claim with this identity stands at `n`. */
  ghost predicate FirstClaim(json: Json -> string, before: seq<Event>, identity: string, n: nat) {
    n < |before| && before[n].Claimed? && before[n].claim.Identity(json) == identity
    && forall m :: 0 <= m < n && before[m].Claimed? ==> before[m].claim.Identity(json) != identity
  }

  ghost predicate SameQualifiers(c: Claim, d: Claim) {
    c.Confidence() == d.Confidence() && c.Language() == d.Language()
  }

  /** The targets that a relationship admits. */
  ghost predicate Legal(relationship: string, entityType: string) {
    (relationship == "implements"
     && entityType in {"adr", "decision", "capability", "contract", "interface", "implementation_decision"})
    || (relationship == "enforces" && entityType == "invariant")
    || (relationship == "embodies" && entityType in {"system", "component", "boundary"})
  }

  /** What is wrong with a claim, given the events before it. */
  ghost predicate Blamed(ctx: Context, before: seq<Event>, e: Event, code: Code)
    requires e.Claimed?
  {
    var c := e.claim;
    match code
    case DuplicateClaim =>
      exists d :: d in before && d.Claimed? && d.at == e.at
                  && d.claim.Relationship() + US + d.claim.Target() == c.Relationship() + US + c.Target()
    case DuplicateOccurrence =>
      exists n: nat :: FirstClaim(ctx.json, before, c.Identity(ctx.json), n) && SameQualifiers(before[n].claim, c)
    case ConflictingOccurrence =>
      exists n: nat :: FirstClaim(ctx.json, before, c.Identity(ctx.json), n) && !SameQualifiers(before[n].claim, c)
    case ConflictingImplementationType => e.previousType != c.ImplementationType()
    case EnforcesConfidence => ctx.version == V16 && c.Relationship() == "enforces" && c.Confidence() != "declared"
    case UnresolvedTarget => c.Target() !in ctx.entities
    case AssertedTypeMismatch =>
      c.Target() in ctx.entities
      && exists asserted :: Lookup(c.claim, "asserted_target_entity_type") == Some(Str(asserted))
                            && asserted != Text(ctx.entities[c.Target()], "entity_type")
    case IllegalTargetType =>
      c.Target() in ctx.entities && !Legal(c.Relationship(), Text(ctx.entities[c.Target()], "entity_type"))
    case _ => false
  }

  /** The order in which the checks of a claim are made. */
  ghost function Turn(code: Code): nat {
    match code
    case DuplicateClaim => 0
    case DuplicateOccurrence => 1
    case ConflictingOccurrence => 2
    case ConflictingImplementationType => 3
    case EnforcesConfidence => 4
    case UnresolvedTarget => 5
    case AssertedTypeMismatch => 6
    case IllegalTargetType => 7
    case _ => 8
  }

  /** The list holds one error for every code that the claim is blamed for, in the order of the checks. */
  ghost predicate Accuses(ctx: Context, before: seq<Event>, e: Event, faults: seq<Diagnostic>)
    requires e.Claimed?
  {
    (forall d :: d in faults ==> d == Diagnostic(Error, d.code, OfClaim(e.at, e.index)) && Blamed(ctx, before, e, d.code))
    && (forall code :: Blamed(ctx, before, e, code) ==> Diagnostic(Error, code, OfClaim(e.at, e.index)) in faults)
    && forall i, j :: 0 <= i < j < |faults| ==> Turn(faults[i].code) < Turn(faults[j].code)
  }

  lemma {:induction false} PriorMeans(json: Json -> string, before: seq<Event>, identity: string)
    ensures Prior(json, before, identity).None? <==> !(exists n: nat :: FirstClaim(json, before, identity, n))
    ensures forall n: nat :: FirstClaim(json, before, identity, n) ==>
              Prior(json, before, identity) == Some(Qualifiers(before[n].claim.Confidence(), before[n].claim.Language()))
  {
    hide Claim.Identity, Claim.Confidence, Claim.Language;
    if before != [] {
      var last := |before| - 1;
      PriorMeans(json, before[..last], identity);
      FirstStays(json, before, identity);
      hide FirstClaim;
      if Prior(json, before[..last], identity).Some? {
        var n: nat :| FirstClaim(json, before[..last], identity, n);
        assert FirstClaim(json, before, identity, n);
      }
    }
  }

  lemma FirstStays(json: Json -> string, before: seq<Event>, identity: string)
    requires before != []
    ensures var last := |before| - 1;
            && (forall n: nat :: FirstClaim(json, before[..last], identity, n) ==> n < last && FirstClaim(json, before, identity, n)
                                                                                   && before[..last][n] == before[n])
            && (forall n: nat :: FirstClaim(json, before, identity, n) ==>
                  n <= last && (n < last ==> FirstClaim(json, before[..last], identity, n)))
            && (FirstClaim(json, before, identity, last) <==>
                  before[last].Claimed? && before[last].claim.Identity(json) == identity
                  && !(exists n: nat :: FirstClaim(json, before[..last], identity, n)))
  {
    hide Claim.Identity;
    var last := |before| - 1;
    var init := before[..last];
    assert forall m :: 0 <= m < last ==> init[m] == before[m];
    if before[last].Claimed? && before[last].claim.Identity(json) == identity && !FirstClaim(json, before, identity, last) {
      var m :| 0 <= m < last && before[m].Claimed? && before[m].claim.Identity(json) == identity;
      var n := Earliest(json, init, identity, m);
    }
  }

  lemma {:induction false} Earliest(json: Json -> string, before: seq<Event>, identity: string, m: nat) returns (n: nat)
    requires m < |before| && before[m].Claimed? && before[m].claim.Identity(json) == identity
    ensures FirstClaim(json, before, identity, n)
  {
    hide Claim.Identity;
    if k :| 0 <= k < m && before[k].Claimed? && before[k].claim.Identity(json) == identity {
      n := Earliest(json, before, identity, k);
    } else {
      n := m;
    }
  }

  lemma SeenMeans(ctx: Context, before: seq<Event>, e: Event)
    requires e.Claimed?
    ensures SeenInRecord(before, e.at, e.claim.PairKey()) <==> Blamed(ctx, before, e, DuplicateClaim)
  {
    if d :| d in before && d.Claimed? && d.at == e.at
            && d.claim.Relationship() + US + d.claim.Target() == e.claim.Relationship() + US + e.claim.Target() {
      var i :| 0 <= i < |before| && before[i] == d;
    }
  }

  /** The prior part of the diagnostics. */
  lemma OccurrenceMeans(ctx: Context, before: seq<Event>, e: Event)
    requires e.Claimed?
    ensures var prior := Prior(ctx.json, before, e.claim.Identity(ctx.json));
            var own := Qualifiers(e.claim.Confidence(), e.claim.Language());
            && (Blamed(ctx, before, e, DuplicateOccurrence) <==> prior == Some(own))
            && (Blamed(ctx, before, e, ConflictingOccurrence) <==> prior.Some? && prior != Some(own))
  {
    var identity := e.claim.Identity(ctx.json);
    PriorMeans(ctx.json, before, identity);
    hide Prior;
    if Prior(ctx.json, before, identity).Some? {
      var n: nat :| FirstClaim(ctx.json, before, identity, n);
    }
  }

  lemma TargetMeans(ctx: Context, before: seq<Event>, e: Event)
    requires e.Claimed?
    ensures Blamed(ctx, before, e, AssertedTypeMismatch) <==>
              e.claim.Target() in ctx.entities
              && OptionalText(e.claim.claim, "asserted_target_entity_type").Some?
              && OptionalText(e.claim.claim, "asserted_target_entity_type").value != Text(ctx.entities[e.claim.Target()], "entity_type")
    ensures Blamed(ctx, before, e, IllegalTargetType) <==>
              e.claim.Target() in ctx.entities
              && !AllowedTarget(e.claim.Relationship(), Text(ctx.entities[e.claim.Target()], "entity_type"))
  {
  }

  ghost function One(ctx: Context, before: seq<Event>, e: Event, code: Code): seq<Diagnostic>
    requires e.Claimed?
  {
    if Blamed(ctx, before, e, code) then [Diagnostic(Error, code, OfClaim(e.at, e.index))] else []
  }

  /** The diagnostics for these codes, one after the other. */
  ghost function For(ctx: Context, before: seq<Event>, e: Event, codes: seq<Code>): seq<Diagnostic>
    requires e.Claimed?
  {
    if codes == [] then [] else One(ctx, before, e, codes[0]) + For(ctx, before, e, codes[1..])
  }

  const CHECKS: seq<Code> :=
    [DuplicateClaim, DuplicateOccurrence, ConflictingOccurrence, ConflictingImplementationType, EnforcesConfidence,
     UnresolvedTarget, AssertedTypeMismatch, IllegalTargetType]

  ghost predicate InTurn(codes: seq<Code>) {
    forall i, j :: 0 <= i < j < |codes| ==> Turn(codes[i]) < Turn(codes[j])
  }

  /** One error for every blamed code of the list, in its order. */
  ghost predicate Collected(ctx: Context, before: seq<Event>, e: Event, codes: seq<Code>, faults: seq<Diagnostic>)
    requires e.Claimed?
  {
    (forall d :: d in faults ==> d == Diagnostic(Error, d.code, OfClaim(e.at, e.index)) && d.code in codes
                                 && Blamed(ctx, before, e, d.code))
    && (forall code :: code in codes && Blamed(ctx, before, e, code) ==> Diagnostic(Error, code, OfClaim(e.at, e.index)) in faults)
    && forall i, j :: 0 <= i < j < |faults| ==> Turn(faults[i].code) < Turn(faults[j].code)
  }

  lemma Prepended(ctx: Context, before: seq<Event>, e: Event, code: Code, codes: seq<Code>, faults: seq<Diagnostic>)
    requires e.Claimed? && Collected(ctx, before, e, codes, faults) && forall c :: c in codes ==> Turn(code) < Turn(c)
    ensures Collected(ctx, before, e, [code] + codes, One(ctx, before, e, code) + faults)
  {
    hide Blamed, Turn;
    var first := One(ctx, before, e, code);
    var all := first + faults;
    assert forall d :: d in all <==> d in first || d in faults;
    assert forall c :: c in [code] + codes <==> c == code || c in codes;
    forall i, j | 0 <= i < j < |all| ensures Turn(all[i].code) < Turn(all[j].code) {
      if first == [] {
        assert all == faults;
      } else if i == 0 {
        assert all[j] == faults[j - 1] && faults[j - 1] in faults;
      } else {
        assert all[i] == faults[i - 1] && all[j] == faults[j - 1];
      }
    }
  }

  lemma TurnsAfter(codes: seq<Code>)
    requires codes != [] && InTurn(codes)
    ensures InTurn(codes[1..]) && forall c :: c in codes[1..] ==> Turn(codes[0]) < Turn(c)
  {
    hide Turn;
  }

  lemma {:induction false} ForMeans(ctx: Context, before: seq<Event>, e: Event, codes: seq<Code>)
    requires e.Claimed? && InTurn(codes)
    ensures Collected(ctx, before, e, codes, For(ctx, before, e, codes))
  {
    hide Blamed, InTurn, One, Turn;
    if codes != [] {
      hide Collected;
      assert codes == [codes[0]] + codes[1..];
      TurnsAfter(codes);
      ForMeans(ctx, before, e, codes[1..]);
      Prepended(ctx, before, e, codes[0], codes[1..], For(ctx, before, e, codes[1..]));
    }
  }

  lemma ChecksInTurn()
    ensures InTurn(CHECKS)
  {
  }

  lemma TargetParts(ctx: Context, before: seq<Event>, e: Event)
    requires e.Claimed?
    ensures TargetFaults(ctx, e)
         == One(ctx, before, e, UnresolvedTarget) + (One(ctx, before, e, AssertedTypeMismatch) + One(ctx, before, e, IllegalTargetType))
  {
    TargetMeans(ctx, before, e);
    assert Blamed(ctx, before, e, UnresolvedTarget) <==> e.claim.Target() !in ctx.entities;
    hide Blamed, AllowedTarget, OptionalText, Text;
  }

  lemma EarlierParts(ctx: Context, before: seq<Event>, e: Event)
    requires e.Claimed?
    ensures FaultsAfter(ctx, before, e)
         == One(ctx, before, e, DuplicateClaim)
            + (One(ctx, before, e, DuplicateOccurrence) + One(ctx, before, e, ConflictingOccurrence))
            + One(ctx, before, e, ConflictingImplementationType) + One(ctx, before, e, EnforcesConfidence)
            + TargetFaults(ctx, e)
  {
    SeenMeans(ctx, before, e);
    OccurrenceMeans(ctx, before, e);
    assert Blamed(ctx, before, e, ConflictingImplementationType) <==> e.previousType != e.claim.ImplementationType();
    assert Blamed(ctx, before, e, EnforcesConfidence) <==>
        (ctx.version == V16 && e.claim.Relationship() == "enforces" && e.claim.Confidence() != "declared");
    hide Blamed, SeenInRecord, Prior, TargetFaults, Text, OptionalText, Claim.Identity, Claim.PairKey;
    var d := One(ctx, before, e, DuplicateOccurrence) + One(ctx, before, e, ConflictingOccurrence);
    var prior := Prior(ctx.json, before, e.claim.Identity(ctx.json));
    assert d == match prior
                case None => []
                case Some(q) =>
                  When(true, if q == Qualifiers(e.claim.Confidence(), e.claim.Language()) then DuplicateOccurrence
                             else ConflictingOccurrence, e);
  }

  lemma Regrouped<T>(a: seq<T>, b: seq<T>, c: seq<T>, d: seq<T>, x: seq<T>, f: seq<T>, g: seq<T>, h: seq<T>)
    ensures a + (b + c) + d + x + (f + (g + h)) == a + (b + (c + (d + (x + (f + (g + (h + [])))))))
  {
  }

  /** The diagnostics of a claim, exactly: one error for every code that it is to blame for, in order. */
  lemma FaultsExactly(ctx: Context, before: seq<Event>, e: Event)
    requires e.Claimed?
    ensures Accuses(ctx, before, e, FaultsAfter(ctx, before, e))
  {
    ForChecks(ctx, before, e);
    ChecksInTurn();
    hide Blamed, FaultsAfter, For, Turn;
    ForMeans(ctx, before, e, CHECKS);
    AllCodes(ctx, before, e);
    ghost var codes := CHECKS;
    assert Collected(ctx, before, e, codes, FaultsAfter(ctx, before, e)) && forall code :: Blamed(ctx, before, e, code) ==> code in codes;
  }

  lemma ForChecks(ctx: Context, before: seq<Event>, e: Event)
    requires e.Claimed?
    ensures FaultsAfter(ctx, before, e) == For(ctx, before, e, CHECKS)
  {
    EarlierParts(ctx, before, e);
    TargetParts(ctx, before, e);
    hide FaultsAfter, TargetFaults;
    Regrouped(One(ctx, before, e, DuplicateClaim), One(ctx, before, e, DuplicateOccurrence),
      One(ctx, before, e, ConflictingOccurrence), One(ctx, before, e, ConflictingImplementationType),
      One(ctx, before, e, EnforcesConfidence), One(ctx, before, e, UnresolvedTarget),
      One(ctx, before, e, AssertedTypeMismatch), One(ctx, before, e, IllegalTargetType));
    hide One;
    Unrolled(ctx, before, e);
  }

  lemma Unrolled(ctx: Context, before: seq<Event>, e: Event)
    requires e.Claimed?
    ensures For(ctx, before, e, CHECKS)
         == One(ctx, before, e, CHECKS[0]) + (One(ctx, before, e, CHECKS[1]) + (One(ctx, before, e, CHECKS[2])
            + (One(ctx, before, e, CHECKS[3]) + (One(ctx, before, e, CHECKS[4]) + (One(ctx, before, e, CHECKS[5])
            + (One(ctx, before, e, CHECKS[6]) + (One(ctx, before, e, CHECKS[7]) + [])))))))
  {
    hide One;
    assert For(ctx, before, e, CHECKS[8..]) == [];
    forall i | 0 <= i < 8 ensures For(ctx, before, e, CHECKS[i..]) == One(ctx, before, e, CHECKS[i]) + For(ctx, before, e, CHECKS[i + 1..]) {
      assert CHECKS[i..][1..] == CHECKS[i + 1..];
    }
    assert CHECKS[0..] == CHECKS;
  }

  lemma AllCodes(ctx: Context, before: seq<Event>, e: Event)
    requires e.Claimed?
    ensures forall code :: Blamed(ctx, before, e, code) ==> code in CHECKS
  {
    forall code | Blamed(ctx, before, e, code) ensures code in CHECKS {
      assert CHECKS[0] == DuplicateClaim && CHECKS[1] == DuplicateOccurrence && CHECKS[2] == ConflictingOccurrence;
      assert CHECKS[3] == ConflictingImplementationType && CHECKS[4] == EnforcesConfidence && CHECKS[5] == UnresolvedTarget;
      assert CHECKS[6] == AssertedTypeMismatch && CHECKS[7] == IllegalTargetType;
    }
  }

  /* ---------- where the events stand ---------- */

  /** Of the records with this implementation the first gives it this type. */
  ghost predicate FirstType(records: seq<Json>, id: string, kind: string) {
    exists j: nat :: j < |records| && records[j].Obj? && ImplementationOf(records[j]) == id && TypeOf(records[j]) == kind
                     && forall k :: 0 <= k < j && records[k].Obj? ==> ImplementationOf(records[k]) != id
  }

  /** The event is about a record or a claim that stands where the event says. */
  ghost predicate Placed(records: seq<Json>, e: Event) {
    e.at < |records|
    && match e
       case BadRecord(at) => !records[at].Obj?
       case Unattributed(at) =>
         records[at].Obj? && !(exists items :: records[at].Get("claims") == Some(Arr(items)) && items != [])
       case Claimed(at, i, c, previousType) =>
         records[at] == Obj(c.record) && FirstType(records[..at + 1], c.Implementation(), previousType)
         && exists items :: records[at].Get("claims") == Some(Arr(items)) && i < |items| && items[i] == Obj(c.claim)
  }

  lemma {:induction false} TypesMean(records: seq<Json>, id: string, kind: string)
    ensures id in Types(records) && Types(records)[id] == kind <==> FirstType(records, id, kind)
    ensures id !in Types(records) <==> forall k :: 0 <= k < |records| && records[k].Obj? ==> ImplementationOf(records[k]) != id
  {
    if records != [] {
      var n := |records| - 1;
      var init, last := records[..n], records[n];
      TypesMean(init, id, kind);
      FirstTypeStep(init, last, id, kind);
      assert records == init + [last];
      assert forall k :: 0 <= k < n ==> init[k] == records[k];
      hide FirstType;
    }
  }

  lemma FirstTypeStep(init: seq<Json>, last: Json, id: string, kind: string)
    ensures FirstType(init + [last], id, kind) <==>
              FirstType(init, id, kind)
              || ((forall k :: 0 <= k < |init| && init[k].Obj? ==> ImplementationOf(init[k]) != id)
                  && last.Obj? && ImplementationOf(last) == id && TypeOf(last) == kind)
  {
    hide ImplementationOf, TypeOf;
    var all := init + [last];
    assert forall k :: 0 <= k < |init| ==> all[k] == init[k];
    if FirstType(init, id, kind) {
      var j: nat :| j < |init| && init[j].Obj? && ImplementationOf(init[j]) == id && TypeOf(init[j]) == kind
                    && forall k :: 0 <= k < j && init[k].Obj? ==> ImplementationOf(init[k]) != id;
      assert all[j] == init[j];
    }
    if (forall k :: 0 <= k < |init| && init[k].Obj? ==> ImplementationOf(init[k]) != id)
       && last.Obj? && ImplementationOf(last) == id && TypeOf(last) == kind {
      assert all[|init|] == last;
    }
  }

  lemma {:induction false} ClaimEventsStand(at: nat, record: Fields, claims: seq<Json>, previousType: string, e: Event)
    ensures e in ClaimEvents(at, record, claims, previousType) <==>
              e.Claimed? && e.at == at && e.claim.record == record && e.previousType == previousType
              && e.index < |claims| && claims[e.index] == Obj(e.claim.claim)
  {
    if claims != [] {
      var n := |claims| - 1;
      ClaimEventsStand(at, record, claims[..n], previousType, e);
      assert forall i :: 0 <= i < n ==> claims[..n][i] == claims[i];
      if e.Claimed? && e.claim.record == record {
        assert e.claim == Claim(record, e.claim.claim);
      }
    }
  }

  lemma RecordStands(records: seq<Json>, e: Event)
    requires records != []
    ensures var n := |records| - 1;
            e in RecordEvents(n, records[n], Types(records[..n])) <==> Placed(records, e) && e.at == n
  {
    var n := |records| - 1;
    var raw := records[n];
    assert records[..n + 1] == records;
    if raw.Obj? {
      var types, id := Types(records[..n]), ImplementationOf(raw);
      ClaimEventsStand(n, raw.fields, ClaimsOf(raw.fields), PreviousType(types, raw.fields), e);
      assert records == records[..n] + [raw];
      forall kind ensures FirstType(records, id, kind) <==> kind == PreviousType(types, raw.fields) {
        TypesMean(records[..n], id, kind);
        FirstTypeStep(records[..n], raw, id, kind);
      }
      hide FirstType, Types, ClaimEvents;
    }
  }

  lemma PlacedEarlier(records: seq<Json>, e: Event)
    requires records != []
    ensures var n := |records| - 1; e.at < n ==> (Placed(records[..n], e) <==> Placed(records, e))
  {
    hide FirstType;
    var n := |records| - 1;
    if e.at < n {
      assert records[..n][..e.at + 1] == records[..e.at + 1];
      assert records[..n][e.at] == records[e.at];
    }
  }

  /** The traversal, exactly: what it meets is what stands in the records, each at its place. */
  lemma {:induction false} EventsStand(records: seq<Json>, e: Event)
    ensures e in Events(records) <==> Placed(records, e)
  {
    if records != [] {
      var n := |records| - 1;
      EventsStand(records[..n], e);
      RecordStands(records, e);
      PlacedEarlier(records, e);
      EventsUnfold(records);
      hide Events, RecordEvents;
      assert Placed(records[..n], e) ==> e.at < n;
    }
  }

  /* ---------- what a link shows of its claims ---------- */

  ghost predicate TargetFades(ctx: Context, c: Claim) {
    c.Target() in ctx.entities && Text(ctx.entities[c.Target()], "lifecycle_stage") in {"deprecated", "superseded"}
  }

  /** One warning for a claim whose target fades. */
  ghost function WarningOf(ctx: Context): Event -> seq<Diagnostic> {
    (e: Event) => if e.Claimed? && TargetFades(ctx, e.claim) then [Diagnostic(Warning, TargetLifecycle, OfClaim(e.at, e.index))] else []
  }

  function ProvenanceField(c: Claim, key: string): Option<Json> {
    match Lookup(c.record, "provenance")
    case Some(Obj(fields)) => Lookup(fields, key)
    case _ => None
  }

  /** The evidence of a claim: its confidence, the language of its record, and six facts of its provenance. */
  ghost predicate Witnesses(o: Occurrence, c: Claim) {
    o.confidence == Text(c.claim, "confidence")
    && o.language == Lookup(c.record, "attribution_source_language")
    && o.provenance.Obj?
    && forall key :: o.provenance.Get(key) ==
         if key in {"source_file", "extractor", "commit", "source_pointer", "start_line", "end_line"} then ProvenanceField(c, key)
         else None
  }

  lemma EvidenceWitnesses(c: Claim)
    ensures Witnesses(c.Evidence(), c)
  {
  }

  /** The link shows the claims of one group: the first of them, all their evidence, and whether a target fades. */
  ghost predicate Portrays(ctx: Context, claims: seq<Event>, link: Link) {
    && claims != [] && claims[0].Claimed? && claims[0].claim.Target() in ctx.entities
    && var c, entity := claims[0].claim, ctx.entities[claims[0].claim.Target()];
       && (UNIT !in c.Implementation() && UNIT !in c.Relationship() && UNIT !in c.Target() ==>
             link.implementation == c.Implementation() && link.relationship == c.Relationship() && link.target == c.Target())
       && link.implementationType == c.ImplementationType() && link.targetType == Text(entity, "entity_type")
       && link.aliasId == Text(entity, "alias_id") && link.aliasName == Text(entity, "alias_name")
       && link.lifecycle == Text(entity, "lifecycle_stage")
       && (link.status == Warned <==> exists e :: e in claims && e.Claimed? && TargetFades(ctx, e.claim))
       && link.diagnostics == Gather(WarningOf(ctx), claims)
       && SortedEvidence(ctx.json, link.occurrences, claims)
  }

  /** All evidence of the claims, sorted by its key and otherwise in the order of the claims. */
  ghost predicate SortedEvidence(json: Json -> string, occurrences: seq<Occurrence>, claims: seq<Event>) {
    multiset(occurrences) == multiset(Map(EvidenceOf, claims))
    && Sorted(EvidenceLe(json), occurrences) && SameRuns(EvidenceSortKey(json), occurrences, Map(EvidenceOf, claims))
  }

  lemma SortGivesEvidence(json: Json -> string, claims: seq<Event>)
    ensures SortedEvidence(json, Sort(EvidenceLe(json), Map(EvidenceOf, claims)), claims)
  {
    hide OccurrenceKey, Having, Sort;
    var key, evidence := EvidenceSortKey(json), Map(EvidenceOf, claims);
    EvidencePreorder(json);
    SortSorted(EvidenceLe(json), evidence);
    forall x, y ensures EvidenceLe(json)(x, y) == Order(key)(x, y) {
      SameOrder(json, x, y);
    }
    SortCongruent(EvidenceLe(json), Order(key), evidence);
    forall k ensures Having(key, k, Sort(Order(key), evidence)) == Having(key, k, evidence) {
      SortIsStable(key, k, evidence);
    }
  }

  lemma SplitBehind(part: string, rest: string)
    requires UNIT !in part
    ensures Split(part + (US + rest), UNIT) == [part] + Split(rest, UNIT)
  {
    hide Split;
    assert (US + rest)[1..] == rest;
    SplitFirst(part, US + rest, UNIT);
  }

  lemma SplitThree(a: string, b: string, c: string)
    requires UNIT !in a && UNIT !in b && UNIT !in c
    ensures Split(a + US + b + US + c, UNIT) == [a, b, c]
  {
    hide Split;
    assert a + US + b + US + c == a + (US + (b + (US + c)));
    assert c + "" == c;
    SplitBehind(a, b + (US + c));
    SplitBehind(b, c);
    SplitFirst(c, "", UNIT);
  }

  /** The warnings of a group are those of its claims, in order. */
  lemma {:induction false} GroupsWarn(ctx: Context, events: seq<Event>, k: string)
    ensures k in Settle(ctx, events).groups ==>
              Settle(ctx, events).groups[k].warnings == Gather(WarningOf(ctx), Having(EventKey, k, Accepted(ctx, events)))
  {
    if events != [] {
      var before, last := events[..|events| - 1], events[|events| - 1];
      GroupsWarn(ctx, before, k);
      AcceptedAreGrouped(ctx, before, k);
      assert events == before + [last];
      if last.Claimed? && FaultsAfter(ctx, before, last) == [] {
        AdmittedWarns(ctx, before, last, k);
      } else {
        SameAccepted(ctx, before, last);
      }
    }
  }

  lemma AdmittedWarns(ctx: Context, before: seq<Event>, e: Event, k: string)
    requires e.Claimed? && FaultsAfter(ctx, before, e) == []
    requires var groups, claims := Settle(ctx, before).groups, Having(EventKey, k, Accepted(ctx, before));
             (k in groups <==> claims != []) && (k in groups ==> groups[k].warnings == Gather(WarningOf(ctx), claims))
    ensures var after := Settle(ctx, before + [e]).groups;
            k in after ==> after[k].warnings == Gather(WarningOf(ctx), Having(EventKey, k, Accepted(ctx, before + [e])))
  {
    hide Settle, Accepted, FaultsAfter, Having, Gather;
    AdmittedIsGrouped(ctx, before, e);
    AcceptedGrows(ctx, before, e);
    HavingStep(EventKey, k, Accepted(ctx, before), e);
    AdmitWarns(ctx, Settle(ctx, before).groups, Having(EventKey, k, Accepted(ctx, before)), e, k);
  }

  lemma AdmittedIsGrouped(ctx: Context, before: seq<Event>, e: Event)
    requires e.Claimed? && FaultsAfter(ctx, before, e) == []
    ensures e.claim.Target() in ctx.entities && Settle(ctx, before + [e]).groups == Admit(ctx, Settle(ctx, before).groups, e)
  {
    hide Settle, Faults, SeenInRecord, Prior, Admit, Warnings;
    FaultlessTargetExists(ctx, e, SeenInRecord(before, e.at, e.claim.PairKey()),
      Prior(ctx.json, before, e.claim.Identity(ctx.json)));
    SettleStep(ctx, before, e);
  }

  /** Admitting a claim adds its warning to its own group and leaves the others alone. */
  lemma AdmitWarns(ctx: Context, groups: map<string, Group>, claims: seq<Event>, e: Event, k: string)
    requires e.Claimed? && e.claim.Target() in ctx.entities
    requires (k in groups <==> claims != []) && (k in groups ==> groups[k].warnings == Gather(WarningOf(ctx), claims))
    ensures var after := Admit(ctx, groups, e);
            k in after ==> after[k].warnings == Gather(WarningOf(ctx), claims + if EventKey(e) == k then [e] else [])
  {
    WarningsMean(ctx, e);
    if EventKey(e) == k {
      GatherStep(WarningOf(ctx), claims, e);
      NothingWarned(ctx);
      hide Gather, Warnings, TargetFades;
      assert WarningOf(ctx)(e) == Warnings(ctx, e);
    } else {
      assert claims + [] == claims;
    }
  }

  lemma NothingWarned(ctx: Context)
    ensures Gather(WarningOf(ctx), []) == []
  {
  }

  lemma {:induction false} SomeWarning(ctx: Context, claims: seq<Event>)
    ensures Gather(WarningOf(ctx), claims) != [] <==> exists e :: e in claims && e.Claimed? && TargetFades(ctx, e.claim)
  {
    hide TargetFades;
    if claims != [] {
      SomeWarning(ctx, claims[..|claims| - 1]);
      assert claims == claims[..|claims| - 1] + [claims[|claims| - 1]];
    }
  }

  lemma GroupPortrays(ctx: Context, claims: seq<Event>, k: string, group: Group)
    requires Holds(ctx, group, claims) && group.warnings == Gather(WarningOf(ctx), claims) && EventKey(claims[0]) == k
    ensures Portrays(ctx, claims, LinkOf(ctx.json, k, group).1)
  {
    hide Sort, Split, OccurrenceKey, EvidenceLe, Gather, TargetFades, SortedEvidence, Text, Lasting, EvidenceOf, Map, WarningOf;
    SomeWarning(ctx, claims);
    SortGivesEvidence(ctx.json, claims);
    KeySplits(claims[0].claim);
    hide Claim.GroupKey, Claim.Implementation, Claim.Relationship, Claim.Target, Claim.ImplementationType;
  }

  lemma KeySplits(c: Claim)
    ensures UNIT !in c.Implementation() && UNIT !in c.Relationship() && UNIT !in c.Target() ==>
              Split(c.GroupKey(), UNIT) == [c.Implementation(), c.Relationship(), c.Target()]
  {
    if UNIT !in c.Implementation() && UNIT !in c.Relationship() && UNIT !in c.Target() {
      SplitThree(c.Implementation(), c.Relationship(), c.Target());
    }
  }

  /** Every group becomes a link that portrays its claims. */
  lemma LinkPortrays(ctx: Context, events: seq<Event>, k: string)
    requires k in Settle(ctx, events).groups
    ensures Portrays(ctx, Having(EventKey, k, Accepted(ctx, events)), LinkOf(ctx.json, k, Settle(ctx, events).groups[k]).1)
  {
    hide Settle, Accepted, Having, LinkOf, Portrays, Gather;
    var group, claims := Settle(ctx, events).groups[k], Having(EventKey, k, Accepted(ctx, events));
    AcceptedAreGrouped(ctx, events, k);
    GroupsWarn(ctx, events, k);
    HavingMembers(EventKey, k, Accepted(ctx, events), claims[0]);
    GroupPortrays(ctx, claims, k, group);
  }

  /* ---------- the order of the links ---------- */

  /** Nothing in the text sorts before the separator or is it. */
  ghost predicate PlainId(s: string) {
    forall i :: 0 <= i < |s| ==> s[i] > UNIT
  }

  lemma {:induction false} JoinedOrder(a: string, x: string, b: string, y: string)
    requires PlainId(a) && PlainId(b)
    ensures StringLe(a + US + x, b + US + y) <==> if a == b then StringLe(x, y) else StringLe(a, b)
  {
    var s, t := a + US + x, b + US + y;
    if a == "" || b == "" {
      assert s[1..] == if a == "" then x else a[1..] + US + x;
      assert t[1..] == if b == "" then y else b[1..] + US + y;
    } else if a[0] == b[0] {
      assert s[1..] == a[1..] + US + x && t[1..] == b[1..] + US + y;
      JoinedOrder(a[1..], x, b[1..], y);
      assert a == [a[0]] + a[1..] && b == [b[0]] + b[1..];
    }
  }

  /** implements, then enforces, then embodies. */
  ghost function Rank(relationship: string): nat {
    if relationship == "implements" then 0 else if relationship == "enforces" then 1 else 2
  }

  ghost predicate Earlier(x: Link, y: Link) {
    if x.implementation != y.implementation then StringLe(x.implementation, y.implementation)
    else if x.relationship != y.relationship then Rank(x.relationship) < Rank(y.relationship)
    else StringLe(x.target, y.target)
  }

  ghost predicate PlainClaim(c: Claim) {
    PlainId(c.Implementation()) && PlainId(c.Target())
  }

  lemma PlainHasNoUnit(s: string)
    requires PlainId(s)
    ensures UNIT !in s
  {
  }

  lemma RanksCompare(r1: string, r2: string)
    requires r1 in {"implements", "enforces", "embodies"} && r2 in {"implements", "enforces", "embodies"}
    ensures PlainId(RankText(r1)) && (RankText(r1) == RankText(r2) <==> r1 == r2)
    ensures r1 != r2 ==> (StringLe(RankText(r1), RankText(r2)) <==> Rank(r1) < Rank(r2))
  {
  }

  lemma KeysCompare(i1: string, r1: string, t1: string, o1: string, i2: string, r2: string, t2: string, o2: string)
    requires PlainId(i1) && PlainId(i2) && PlainId(t1) && PlainId(t2)
    requires r1 in {"implements", "enforces", "embodies"} && r2 in {"implements", "enforces", "embodies"}
    requires StringLe(i1 + US + RankText(r1) + US + t1 + US + o1, i2 + US + RankText(r2) + US + t2 + US + o2)
    ensures if i1 != i2 then StringLe(i1, i2) else if r1 != r2 then Rank(r1) < Rank(r2) else StringLe(t1, t2)
  {
    RanksCompare(r1, r2);
    RanksCompare(r2, r1);
    StringLeTotal(t1, t1);
    hide RankText, StringLe, PlainId, Rank;
    var a, b := t1 + US + o1, t2 + US + o2;
    assert i1 + US + RankText(r1) + US + t1 + US + o1 == i1 + US + (RankText(r1) + US + a);
    assert i2 + US + RankText(r2) + US + t2 + US + o2 == i2 + US + (RankText(r2) + US + b);
    JoinedOrder(i1, RankText(r1) + US + a, i2, RankText(r2) + US + b);
    JoinedOrder(RankText(r1), a, RankText(r2), b);
    JoinedOrder(t1, o1, t2, o2);
  }

  /* ---------- all links ---------- */

  ghost function KeyOfPair(p: (string, Group)): string { p.0 }

  ghost function PairLink(json: Json -> string): ((string, Group)) -> (string, Link) {
    (p: (string, Group)) => LinkOf(json, p.0, p.1)
  }

  /** The groups with their keys, in the order of the keys. */
  ghost function Pairs(groups: map<string, Group>): (pairs: seq<(string, Group)>)
    ensures DistinctBy(KeyOfPair, pairs)
  {
    var keys := SortedKeys(groups.Keys);
    seq(|keys|, i requires 0 <= i < |keys| => (keys[i], groups[keys[i]]))
  }

  lemma PairsAreGroups(groups: map<string, Group>, p: (string, Group))
    ensures p in Pairs(groups) <==> p.0 in groups && groups[p.0] == p.1
  {
    var keys := SortedKeys(groups.Keys);
    hide SortedKeys;
    if p.0 in groups && groups[p.0] == p.1 {
      var i :| 0 <= i < |keys| && keys[i] == p.0;
      assert Pairs(groups)[i] == p;
    }
  }

  lemma PairsAreLinked(json: Json -> string, groups: map<string, Group>)
    ensures KeyedLinks(json, groups, SortedKeys(groups.Keys)) == Map(PairLink(json), Pairs(groups))
  {
    hide LinkOf, SortedKeys;
  }

  /** The groups in the order of their links. */
  lemma LinkedGroups(json: Json -> string, groups: map<string, Group>) returns (pairs: seq<(string, Group)>)
    ensures Sort(KeyLe, KeyedLinks(json, groups, SortedKeys(groups.Keys))) == Map(PairLink(json), pairs)
    ensures DistinctBy(KeyOfPair, pairs)
    ensures forall p :: p in pairs <==> p.0 in groups && groups[p.0] == p.1
  {
    hide LinkOf, Sort, KeyedLinks, PairLink, SortedKeys, Pairs, Map;
    var given := Pairs(groups);
    PairsAreLinked(json, groups);
    pairs := ImagePermuted(PairLink(json), given, Sort(KeyLe, Map(PairLink(json), given)));
    DistinctByPermuted(KeyOfPair, given, pairs);
    forall p ensures p in pairs <==> p.0 in groups && groups[p.0] == p.1 {
      SameMembers(given, pairs, p);
      PairsAreGroups(groups, p);
    }
  }

  /** The claims that were accepted and have this key. */
  ghost function GroupClaims(ctx: Context, events: seq<Event>, k: string): seq<Event> {
    Having(EventKey, k, Accepted(ctx, events))
  }

  /** One link for every key of an accepted claim, which portrays the claims of that key. */
  ghost predicate LinksShow(ctx: Context, events: seq<Event>, keys: seq<string>, links: seq<Link>) {
    Distinct(keys) && |links| == |keys|
    && (forall k :: k in keys <==> exists e :: e in Accepted(ctx, events) && e.claim.GroupKey() == k)
    && forall i :: 0 <= i < |keys| ==> Portrays(ctx, GroupClaims(ctx, events, keys[i]), links[i])
  }

  lemma GroupsHaveClaims(ctx: Context, events: seq<Event>, k: string)
    ensures k in Settle(ctx, events).groups <==> exists e :: e in Accepted(ctx, events) && e.claim.GroupKey() == k
  {
    hide Settle, Accepted, Having, Holds;
    AcceptedAreGrouped(ctx, events, k);
    var claims := Having(EventKey, k, Accepted(ctx, events));
    if claims != [] {
      HavingMembers(EventKey, k, Accepted(ctx, events), claims[0]);
    }
    if e :| e in Accepted(ctx, events) && e.claim.GroupKey() == k {
      HavingMembers(EventKey, k, Accepted(ctx, events), e);
    }
  }

  /** The links in order, with the groups that they come from. */
  lemma LinksOfGroups(ctx: Context, events: seq<Event>) returns (pairs: seq<(string, Group)>)
    ensures var links := ReportOf(ctx.json, Settle(ctx, events)).links;
            && |links| == |pairs| && (forall i :: 0 <= i < |pairs| ==> links[i] == LinkOf(ctx.json, pairs[i].0, pairs[i].1).1)
            && LinksShow(ctx, events, Map(KeyOfPair, pairs), links)
    ensures forall i, j :: 0 <= i < j < |pairs| ==>
              StringLe(LinkOf(ctx.json, pairs[i].0, pairs[i].1).0, LinkOf(ctx.json, pairs[j].0, pairs[j].1).0)
  {
    hide Settle, Accepted, LinkOf, Sort, KeyedLinks, Portrays, GroupClaims, StringLe;
    var groups := Settle(ctx, events).groups;
    pairs := LinkedGroups(ctx.json, groups);
    var sorted := Sort(KeyLe, KeyedLinks(ctx.json, groups, SortedKeys(groups.Keys)));
    KeyOrder();
    SortSorted(KeyLe, KeyedLinks(ctx.json, groups, SortedKeys(groups.Keys)));
    PairsShow(ctx, events, pairs);
    LinksFromSorted(ctx.json, pairs, sorted);
    hide LinksShow, KeyLe, Sorted, DistinctBy, Map, PairLink;
  }

  /** Links in the order of their keys, made of pairs. */
  lemma LinksFromSorted(json: Json -> string, pairs: seq<(string, Group)>, sorted: seq<(string, Link)>)
    requires Sorted(KeyLe, sorted) && sorted == Map(PairLink(json), pairs)
    ensures |sorted| == |pairs| && forall i :: 0 <= i < |pairs| ==> sorted[i] == LinkOf(json, pairs[i].0, pairs[i].1)
    ensures forall i, j :: 0 <= i < j < |pairs| ==>
              StringLe(LinkOf(json, pairs[i].0, pairs[i].1).0, LinkOf(json, pairs[j].0, pairs[j].1).0)
  {
    hide LinkOf, StringLe;
    assert forall i, j :: 0 <= i < j < |sorted| ==> KeyLe(sorted[i], sorted[j]);
  }

  lemma PairsShow(ctx: Context, events: seq<Event>, pairs: seq<(string, Group)>)
    requires DistinctBy(KeyOfPair, pairs)
    requires forall p :: p in pairs <==> p.0 in Settle(ctx, events).groups && Settle(ctx, events).groups[p.0] == p.1
    ensures forall links: seq<Link> ::
              |links| == |pairs| && (forall i :: 0 <= i < |pairs| ==> links[i] == LinkOf(ctx.json, pairs[i].0, pairs[i].1).1) ==>
                LinksShow(ctx, events, Map(KeyOfPair, pairs), links)
  {
    hide Settle, Accepted, LinkOf, Portrays;
    var keys := Map(KeyOfPair, pairs);
    forall k ensures k in keys <==> exists e :: e in Accepted(ctx, events) && e.claim.GroupKey() == k {
      GroupsHaveClaims(ctx, events, k);
      if k in keys {
        var i :| 0 <= i < |keys| && keys[i] == k;
        assert pairs[i] in pairs;
      }
      if k in Settle(ctx, events).groups {
        assert (k, Settle(ctx, events).groups[k]) in pairs;
        var i :| 0 <= i < |pairs| && pairs[i] == (k, Settle(ctx, events).groups[k]);
        assert keys[i] == k;
      }
    }
    forall i | 0 <= i < |keys| ensures Portrays(ctx, GroupClaims(ctx, events, keys[i]), LinkOf(ctx.json, pairs[i].0, pairs[i].1).1) {
      assert pairs[i] in pairs;
      LinkPortrays(ctx, events, keys[i]);
    }
  }

  lemma KeyOrder()
    ensures Preorder<(string, Link)>(KeyLe)
  {
    forall x: (string, Link), y: (string, Link) ensures KeyLe(x, y) || KeyLe(y, x) {
      StringLeTotal(x.0, y.0);
    }
    forall x: (string, Link), y: (string, Link), z: (string, Link) | KeyLe(x, y) && KeyLe(y, z) ensures KeyLe(x, z) {
      StringLeTransitive(x.0, y.0, z.0);
    }
  }

  /**
   * The links of a report: one for every key of an accepted claim, each showing the claims of that key; and
   * where the ids hold no control characters, in the order of implementation, relationship and target.
   */
  lemma LinksPortray(ctx: Context, events: seq<Event>)
    ensures var links := ReportOf(ctx.json, Settle(ctx, events)).links;
            && (exists keys :: LinksShow(ctx, events, keys, links))
            && ((forall e :: e in Accepted(ctx, events) ==> PlainClaim(e.claim)) ==>
                  forall i, j :: 0 <= i < j < |links| ==> Earlier(links[i], links[j]))
  {
    hide Settle, Accepted, LinkOf, Portrays, StringLe, LinksOf, LinksShow;
    var pairs := LinksOfGroups(ctx, events);
    var links := ReportOf(ctx.json, Settle(ctx, events)).links;
    if forall e :: e in Accepted(ctx, events) ==> PlainClaim(e.claim) {
      forall i, j | 0 <= i < j < |links| ensures Earlier(links[i], links[j]) {
        KeyShowsLink(ctx, events, Map(KeyOfPair, pairs), links, i);
        KeyShowsLink(ctx, events, Map(KeyOfPair, pairs), links, j);
        PlainLinkKey(ctx.json, pairs[i].0, pairs[i].1);
        PlainLinkKey(ctx.json, pairs[j].0, pairs[j].1);
        KeysCompare(links[i].implementation, links[i].relationship, links[i].target, FirstKey(ctx.json, links[i]),
          links[j].implementation, links[j].relationship, links[j].target, FirstKey(ctx.json, links[j]));
      }
    }
  }

  ghost function FirstKey(json: Json -> string, link: Link): string {
    if link.occurrences == [] then "" else OccurrenceKey(json, link.occurrences[0])
  }

  lemma PlainLinkKey(json: Json -> string, k: string, group: Group)
    ensures var pair := LinkOf(json, k, group);
            pair.0 == pair.1.implementation + US + RankText(pair.1.relationship) + US + pair.1.target + US + FirstKey(json, pair.1)
  {
    hide Split, Sort, OccurrenceKey, RankText;
  }

  /** The ids of a link are those of its first claim, which was admissible. */
  lemma KeyShowsLink(ctx: Context, events: seq<Event>, keys: seq<string>, links: seq<Link>, i: nat)
    requires LinksShow(ctx, events, keys, links) && i < |links| && forall e :: e in Accepted(ctx, events) ==> PlainClaim(e.claim)
    ensures PlainId(links[i].implementation) && PlainId(links[i].target)
    ensures links[i].relationship in {"implements", "enforces", "embodies"}
  {
    hide Accepted, Having, PlainId, SortedEvidence, TargetFades, WarningOf, Gather;
    var claims := GroupClaims(ctx, events, keys[i]);
    assert Portrays(ctx, claims, links[i]);
    HavingMembers(EventKey, keys[i], Accepted(ctx, events), claims[0]);
    var c := claims[0].claim;
    PlainHasNoUnit(c.Implementation());
    PlainHasNoUnit(c.Target());
    AcceptedIsAdmissible(ctx, events, claims[0]);
    KnownRelationship(ctx, c);
  }

  lemma KnownRelationship(ctx: Context, c: Claim)
    requires Admissible(ctx, c)
    ensures c.Relationship() in {"implements", "enforces", "embodies"} && UNIT !in c.Relationship()
  {
  }

  lemma {:induction false} AcceptedIsAdmissible(ctx: Context, events: seq<Event>, e: Event)
    requires e in Accepted(ctx, events)
    ensures Admissible(ctx, e.claim)
  {
    hide FaultsAfter, Admissible;
    var before, last := events[..|events| - 1], events[|events| - 1];
    if e in Accepted(ctx, before) {
      AcceptedIsAdmissible(ctx, before, e);
    } else {
      FaultlessIsAdmissible(ctx, before, last);
    }
  }

  lemma FaultlessIsAdmissible(ctx: Context, before: seq<Event>, e: Event)
    requires e.Claimed? && FaultsAfter(ctx, before, e) == []
    ensures Admissible(ctx, e.claim)
  {
    hide SeenInRecord, Prior;
    AdmissibleMeans(ctx, e);
    hide Admissible, TargetFaults;
  }

  /* ---------- diagnostics and rejections ---------- */

  /** The event at `n` gives rise to this diagnostic. */
  ghost predicate Raises(ctx: Context, events: seq<Event>, n: nat, d: Diagnostic)
    requires n < |events|
  {
    match events[n]
    case BadRecord(at) => d == Diagnostic(Error, InvalidRecord, OfRecord(at))
    case Unattributed(at) => d == Diagnostic(if ctx.profile == Greenfield then Error else Warning, MissingClaims, OfClaims(at))
    case Claimed(at, i, c, _) =>
      (d == Diagnostic(Error, d.code, OfClaim(at, i)) && Blamed(ctx, events[..n], events[n], d.code))
      || (d == Diagnostic(Warning, TargetLifecycle, OfClaim(at, i)) && TargetFades(ctx, c)
          && forall code :: !Blamed(ctx, events[..n], events[n], code))
  }

  ghost predicate Raised(ctx: Context, events: seq<Event>, d: Diagnostic) {
    exists n: nat :: n < |events| && Raises(ctx, events, n, d)
  }

  lemma NothingBlamed(ctx: Context, before: seq<Event>, e: Event)
    requires e.Claimed?
    ensures FaultsAfter(ctx, before, e) == [] <==> forall code :: !Blamed(ctx, before, e, code)
  {
    FaultsExactly(ctx, before, e);
    hide FaultsAfter, Blamed;
    var faults := FaultsAfter(ctx, before, e);
    if faults != [] {
      assert faults[0] in faults;
    }
  }

  lemma AddedRaises(ctx: Context, before: seq<Event>, e: Event, d: Diagnostic)
    ensures d in Added(ctx, before, e) <==> Raises(ctx, before + [e], |before|, d)
  {
    var all := before + [e];
    assert all[..|before|] == before && all[|before|] == e;
    if e.Claimed? {
      FaultsExactly(ctx, before, e);
      NothingBlamed(ctx, before, e);
      WarningsMean(ctx, e);
      hide FaultsAfter, Blamed, SeenInRecord, Prior, TargetFades;
      AddedClaimed(ctx, before, e);
      hide Added;
    }
  }

  lemma AddedClaimed(ctx: Context, before: seq<Event>, e: Event)
    requires e.Claimed?
    ensures FaultsAfter(ctx, before, e) != [] ==> Added(ctx, before, e) == FaultsAfter(ctx, before, e)
    ensures FaultsAfter(ctx, before, e) == [] ==> e.claim.Target() in ctx.entities && Added(ctx, before, e) == Warnings(ctx, e)
  {
    FaultlessTargetExists(ctx, e, SeenInRecord(before, e.at, e.claim.PairKey()),
      Prior(ctx.json, before, e.claim.Identity(ctx.json)));
    hide Faults, SeenInRecord, Prior, Warnings;
  }

  lemma WarningsMean(ctx: Context, e: Event)
    requires e.Claimed?
    ensures e.claim.Target() in ctx.entities ==>
              Warnings(ctx, e) == if TargetFades(ctx, e.claim) then [Diagnostic(Warning, TargetLifecycle, OfClaim(e.at, e.index))] else []
  {
  }

  lemma RaisedStep(ctx: Context, before: seq<Event>, e: Event, d: Diagnostic)
    ensures Raised(ctx, before + [e], d) <==> Raised(ctx, before, d) || Raises(ctx, before + [e], |before|, d)
  {
    hide Blamed, TargetFades;
    var all := before + [e];
    forall n: nat | n < |before| ensures Raises(ctx, all, n, d) <==> Raises(ctx, before, n, d) {
      assert all[n] == before[n] && all[..n] == before[..n];
    }
  }

  /** The diagnostics of a report, exactly: those that some event gives rise to. */
  lemma {:induction false} DiagnosticsMean(ctx: Context, events: seq<Event>, d: Diagnostic)
    ensures d in Settle(ctx, events).diagnostics <==> Raised(ctx, events, d)
  {
    if events != [] {
      var before, last := events[..|events| - 1], events[|events| - 1];
      assert events == before + [last];
      DiagnosticsMean(ctx, before, d);
      hide Settle, Raised, Raises, Added;
      StepAdds(ctx, before, last);
      AddedRaises(ctx, before, last, d);
      RaisedStep(ctx, before, last, d);
    }
  }

  function SeverityOf(d: Diagnostic): Severity { d.severity }

  lemma {:induction false} CountsMean(diagnostics: seq<Diagnostic>, severity: Severity)
    ensures CountOf(diagnostics, severity) == |Having(SeverityOf, severity, diagnostics)|
  {
    if diagnostics != [] {
      CountsMean(diagnostics[..|diagnostics| - 1], severity);
    }
  }

  /** The rejection names the claim and accuses it of all that it is to blame for. */
  ghost predicate Explains(ctx: Context, events: seq<Event>, n: nat, r: Rejection) {
    n < |events| && events[n].Claimed? && r.diagnostics != [] && Accuses(ctx, events[..n], events[n], r.diagnostics)
    && var c := events[n].claim;
       && r.implementation == Text(c.record, "implementation_entity_id")
       && r.implementationType == Text(c.record, "implementation_entity_type")
       && r.relationship == Text(c.claim, "relationship") && r.target == Text(c.claim, "target_entity_id")
       && Witnesses(Occurrence(r.confidence, r.provenance, Lookup(c.record, "attribution_source_language")), c)
  }

  ghost function Rejections(ctx: Context, events: seq<Event>): seq<Rejection> {
    Unkeyed(Settle(ctx, events).rejected)
  }

  lemma RejectionStep(ctx: Context, before: seq<Event>, e: Event)
    ensures var faults := if e.Claimed? then FaultsAfter(ctx, before, e) else [];
            Rejections(ctx, before + [e]) == Rejections(ctx, before) + if faults != [] then [RejectionOf(e.claim, faults)] else []
  {
    hide Settle, Refused, FaultsAfter, RejectionKey, RejectionOf;
    RefusalStep(ctx, before, e);
  }

  lemma StillExplains(ctx: Context, before: seq<Event>, e: Event, n: nat, r: Rejection)
    ensures n < |before| ==> (Explains(ctx, before, n, r) <==> Explains(ctx, before + [e], n, r))
  {
    hide Accuses, Witnesses;
    if n < |before| {
      assert (before + [e])[..n] == before[..n] && (before + [e])[n] == before[n];
    }
  }

  lemma LastExplains(ctx: Context, before: seq<Event>, e: Event)
    requires e.Claimed? && FaultsAfter(ctx, before, e) != []
    ensures Explains(ctx, before + [e], |before|, RejectionOf(e.claim, FaultsAfter(ctx, before, e)))
  {
    FaultsExactly(ctx, before, e);
    EvidenceWitnesses(e.claim);
    hide FaultsAfter, Accuses, Witnesses;
    assert (before + [e])[..|before|] == before;
  }

  /** Every rejection explains a claim. */
  lemma {:induction false} RejectionsExplain(ctx: Context, events: seq<Event>, r: Rejection)
    requires r in Rejections(ctx, events)
    ensures exists n: nat :: Explains(ctx, events, n, r)
  {
    hide Explains, FaultsAfter, RejectionOf;
    if events != [] {
      var before, last := events[..|events| - 1], events[|events| - 1];
      assert events == before + [last];
      RejectionStep(ctx, before, last);
      hide Rejections;
      if r in Rejections(ctx, before) {
        RejectionsExplain(ctx, before, r);
        var n: nat :| Explains(ctx, before, n, r);
        ExplainsInside(ctx, before, n, r);
        StillExplains(ctx, before, last, n, r);
      } else {
        LastExplains(ctx, before, last);
      }
    }
  }

  lemma ExplainsInside(ctx: Context, events: seq<Event>, n: nat, r: Rejection)
    requires Explains(ctx, events, n, r)
    ensures n < |events|
  {
  }

  /** Every claim that is to blame is explained by a rejection. */
  lemma {:induction false} BlamedAreRejected(ctx: Context, events: seq<Event>, n: nat, code: Code)
    requires n < |events| && events[n].Claimed? && Blamed(ctx, events[..n], events[n], code)
    ensures exists r :: r in Rejections(ctx, events) && Explains(ctx, events, n, r)
  {
    hide Explains, FaultsAfter, RejectionOf, Blamed;
    var before, last := events[..|events| - 1], events[|events| - 1];
    assert events == before + [last];
    RejectionStep(ctx, before, last);
    hide Rejections;
    if n < |before| {
      assert before[..n] == events[..n];
      BlamedAreRejected(ctx, before, n, code);
      var r :| r in Rejections(ctx, before) && Explains(ctx, before, n, r);
      StillExplains(ctx, before, last, n, r);
    } else {
      NothingBlamed(ctx, before, last);
      LastExplains(ctx, before, last);
    }
  }

  /**
   * The report of a run: its diagnostics are those that some event gives rise to and are counted by severity;
   * its rejections are those of the claims that are to blame.
   */
  lemma ReportSays(ctx: Context, events: seq<Event>)
    ensures var r := ReportOf(ctx.json, Settle(ctx, events));
            && (forall d :: d in r.diagnostics <==> Raised(ctx, events, d))
            && r.errors == |Having(SeverityOf, Error, r.diagnostics)| && r.warnings == |Having(SeverityOf, Warning, r.diagnostics)|
            && (r.success <==> forall d :: d in r.diagnostics ==> d.severity == Warning)
            && multiset(r.rejected) == multiset(Rejections(ctx, events))
  {
    hide Settle, Raised, LinksOf, CountOf;
    var t := Settle(ctx, events);
    forall d ensures d in t.diagnostics <==> Raised(ctx, events, d) {
      DiagnosticsMean(ctx, events, d);
    }
    CountsMean(t.diagnostics, Error);
    CountsMean(t.diagnostics, Warning);
    UnkeyedPermuted(Sort(KeyLe, t.rejected), t.rejected);
    NoErrorsListed(t.diagnostics);
  }

  lemma NoErrorsListed(diagnostics: seq<Diagnostic>)
    ensures Having(SeverityOf, Error, diagnostics) == [] <==> forall d :: d in diagnostics ==> d.severity == Warning
  {
    var errors := Having(SeverityOf, Error, diagnostics);
    forall d ensures d in errors <==> d in diagnostics && d.severity == Error {
      HavingMembers(SeverityOf, Error, diagnostics, d);
    }
    hide Having;
    if errors != [] {
      assert errors[0] in errors;
    }
  }
}
