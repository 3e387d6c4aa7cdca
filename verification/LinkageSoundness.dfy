/** What accepted claims satisfy, and what a successful run means. */
module LinkageSoundness {
  import opened Prelude
  import opened Grouping
  import opened Linkage
  import opened LinkageLaws

  /* ---------- the claims of the records ---------- */

  function ObjectClaims(record: Fields, claims: seq<Json>): seq<Claim> {
    if claims == [] then [] else
    var raw := claims[|claims| - 1];
    ObjectClaims(record, claims[..|claims| - 1]) + if raw.Obj? then [Claim(record, raw.fields)] else []
  }

  /** The claim objects of one record. */
  function RecordClaims(raw: Json): seq<Claim> {
    if raw.Obj? then ObjectClaims(raw.fields, ClaimsOf(raw.fields)) else []
  }

  /** The claim objects of all records. */
  function AllClaims(records: seq<Json>): seq<Claim> {
    Gather(RecordClaims, records)
  }

  function ClaimIn(e: Event): Claim {
    if e.Claimed? then e.claim else Claim(map[], map[])
  }

  lemma {:induction false} ClaimsInConcat(s: seq<Event>, t: seq<Event>)
    ensures ClaimsIn(s + t) == ClaimsIn(s) + ClaimsIn(t)
  {
    if t == [] {
      assert s + t == s;
    } else {
      var n := |t| - 1;
      ClaimsInConcat(s, t[..n]);
      assert s + t == (s + t[..n]) + [t[n]];
      assert (s + t)[..|s + t| - 1] == s + t[..n];
    }
  }

  lemma {:induction false} ClaimEventsCarry(at: nat, record: Fields, claims: seq<Json>, previousType: string)
    ensures var events := ClaimEvents(at, record, claims, previousType);
            ClaimsIn(events) == events && Map(ClaimIn, events) == ObjectClaims(record, claims)
  {
    if claims != [] {
      hide ClaimsIn, Map;
      var n := |claims| - 1;
      ClaimEventsCarry(at, record, claims[..n], previousType);
      var before := ClaimEvents(at, record, claims[..n], previousType);
      var step: seq<Event> := if claims[n].Obj? then [Claimed(at, n, Claim(record, claims[n].fields), previousType)] else [];
      ClaimsInConcat(before, step);
      MapConcat(ClaimIn, before, step);
      if claims[n].Obj? {
        SingleClaim(step[0]);
      } else {
        assert ClaimsIn([]) == [] && Map(ClaimIn, []) == [];
      }
    }
  }

  lemma SingleClaim(e: Event)
    requires e.Claimed?
    ensures ClaimsIn([e]) == [e] && Map(ClaimIn, [e]) == [e.claim]
  {
  }

  /** The traversal meets the claim objects of the records, in order, and no others. */
  lemma {:induction false} EventsCarryClaims(records: seq<Json>)
    ensures Map(ClaimIn, ClaimsIn(Events(records))) == AllClaims(records)
  {
    if records != [] {
      var n := |records| - 1;
      var init, types := records[..n], Types(records[..n]);
      EventsCarryClaims(init);
      RecordCarriesClaims(n, records[n], types);
      ClaimsInConcat(Events(init), RecordEvents(n, records[n], types));
      MapConcat(ClaimIn, ClaimsIn(Events(init)), ClaimsIn(RecordEvents(n, records[n], types)));
    }
  }

  lemma RecordCarriesClaims(at: nat, raw: Json, types: map<string, string>)
    ensures Map(ClaimIn, ClaimsIn(RecordEvents(at, raw, types))) == RecordClaims(raw)
  {
    if raw.Obj? {
      hide ClaimEvents, ObjectClaims, PreviousType;
      var previousType := PreviousType(types, raw.fields);
      var claims := ClaimEvents(at, raw.fields, ClaimsOf(raw.fields), previousType);
      ClaimEventsCarry(at, raw.fields, ClaimsOf(raw.fields), previousType);
      ClaimsInConcat(HeaderEvents(at, raw.fields), claims);
      assert ClaimsIn(HeaderEvents(at, raw.fields)) == [];
      assert [] + claims == claims;
    }
  }

  /* ---------- types ---------- */

  /** The events know the type that their implementation was first given. */
  ghost predicate KnowTypes(events: seq<Event>, types: map<string, string>) {
    forall e :: e in events && e.Claimed? ==>
      e.claim.Implementation() in types && e.previousType == types[e.claim.Implementation()]
  }

  lemma KnowMoreTypes(events: seq<Event>, types: map<string, string>, record: Fields)
    requires KnowTypes(events, types)
    ensures KnowTypes(events, TypesWith(types, record))
  {
  }

  lemma {:induction false} ClaimEventsKnow(at: nat, record: Fields, claims: seq<Json>, types: map<string, string>)
    ensures KnowTypes(ClaimEvents(at, record, claims, PreviousType(types, record)), TypesWith(types, record))
  {
    if claims != [] {
      ClaimEventsKnow(at, record, claims[..|claims| - 1], types);
    }
  }

  lemma {:induction false} EventsKnowTypes(records: seq<Json>)
    ensures KnowTypes(Events(records), Types(records))
  {
    if records != [] {
      var n := |records| - 1;
      EventsKnowTypes(records[..n]);
      var types := Types(records[..n]);
      if records[n].Obj? {
        hide ClaimEvents, TypesWith, PreviousType, Events;
        KnowMoreTypes(Events(records[..n]), types, records[n].fields);
        ClaimEventsKnow(n, records[n].fields, ClaimsOf(records[n].fields), types);
        EventsUnfold(records);
      } else {
        assert RecordEvents(n, records[n], types) == [BadRecord(n)];
      }
    }
  }

  lemma EventsUnfold(records: seq<Json>)
    requires records != []
    ensures var n := |records| - 1;
            Events(records) == Events(records[..n]) + RecordEvents(n, records[n], Types(records[..n]))
  {
  }

  /* ---------- one claim ---------- */

  /** What a claim needs by itself: the qualifiers of its version, and an existing target it may have. */
  ghost predicate Admissible(ctx: Context, c: Claim) {
    (ctx.version == V16 && c.Relationship() == "enforces" ==> c.Confidence() == "declared")
    && c.Target() in ctx.entities
    && AllowedTarget(c.Relationship(), Text(ctx.entities[c.Target()], "entity_type"))
    && (forall asserted :: OptionalText(c.claim, "asserted_target_entity_type") == Some(asserted) ==>
          asserted == Text(ctx.entities[c.Target()], "entity_type"))
  }

  ghost predicate Unclaimed(json: Json -> string, before: seq<Event>, identity: string) {
    forall e :: e in before && e.Claimed? ==> e.claim.Identity(json) != identity
  }

  lemma UnclaimedLater(json: Json -> string, init: seq<Event>, last: Event, identity: string)
    ensures Unclaimed(json, init + [last], identity) <==>
              Unclaimed(json, init, identity) && (last.Claimed? ==> last.claim.Identity(json) != identity)
  {
    hide Claim.Identity;
    var all := init + [last];
    assert all[|init|] == last && forall e :: e in all <==> e in init || e == last;
  }

  lemma {:induction false} NoPrior(json: Json -> string, before: seq<Event>, identity: string)
    ensures Prior(json, before, identity).None? <==> Unclaimed(json, before, identity)
  {
    hide Claim.Identity;
    if before != [] {
      var n := |before| - 1;
      NoPrior(json, before[..n], identity);
      UnclaimedLater(json, before[..n], before[n], identity);
      assert before == before[..n] + [before[n]];
      hide Unclaimed;
    }
  }

  /** A claim repeated within its record repeats an identity: the record fixes the rest of it. */
  lemma RepeatedHasPrior(json: Json -> string, before: seq<Event>, e: Event)
    requires e.Claimed? && Unclaimed(json, before, e.claim.Identity(json)) && SameRecordAt(before, e)
    ensures !SeenInRecord(before, e.at, e.claim.PairKey())
  {
    var c := e.claim;
    forall i | 0 <= i < |before| && before[i].Claimed? && before[i].at == e.at ensures before[i].claim.PairKey() != c.PairKey() {
      var d := before[i].claim;
      assert before[i] in before;
      if d.PairKey() == c.PairKey() {
        IdentityFromPair(json, d);
        IdentityFromPair(json, c);
      }
    }
  }

  lemma IdentityFromPair(json: Json -> string, c: Claim)
    ensures c.Identity(json) == c.Implementation() + US + c.PairKey() + US + ProvenanceKey(json, Lookup(c.record, "provenance"))
  {
    assert c.Implementation() + US + (c.Relationship() + US + c.Target()) == c.Implementation() + US + c.Relationship() + US + c.Target();
  }

  /** Events of one record index carry one record. */
  ghost predicate SameRecordAt(before: seq<Event>, e: Event) {
    forall d :: d in before && d.Claimed? && e.Claimed? && d.at == e.at ==> d.claim.record == e.claim.record
  }

  /** A claim has no fault exactly when it is new, agrees with the type and is admissible. */
  lemma FaultlessMeans(ctx: Context, before: seq<Event>, e: Event)
    requires e.Claimed? && SameRecordAt(before, e)
    ensures FaultsAfter(ctx, before, e) == [] <==>
              Unclaimed(ctx.json, before, e.claim.Identity(ctx.json)) && e.previousType == e.claim.ImplementationType()
              && Admissible(ctx, e.claim)
  {
    NoPrior(ctx.json, before, e.claim.Identity(ctx.json));
    if Unclaimed(ctx.json, before, e.claim.Identity(ctx.json)) {
      RepeatedHasPrior(ctx.json, before, e);
    }
    hide SeenInRecord, Prior, Unclaimed, SameRecordAt;
    AdmissibleMeans(ctx, e);
    hide Admissible, TargetFaults;
  }

  lemma AdmissibleMeans(ctx: Context, e: Event)
    requires e.Claimed?
    ensures Admissible(ctx, e.claim) <==>
              TargetFaults(ctx, e) == []
              && !(ctx.version == V16 && e.claim.Relationship() == "enforces" && e.claim.Confidence() != "declared")
  {
  }

  /* ---------- accepted claims ---------- */

  ghost predicate FromRecords(events: seq<Event>, records: seq<Json>) {
    forall e :: e in events && e.Claimed? ==> e.at < |records| && records[e.at] == Obj(e.claim.record)
  }

  lemma {:induction false} ClaimEventsFrom(at: nat, record: Fields, claims: seq<Json>, previousType: string)
    ensures forall e :: e in ClaimEvents(at, record, claims, previousType) ==> e.Claimed? && e.at == at && e.claim.record == record
  {
    if claims != [] {
      ClaimEventsFrom(at, record, claims[..|claims| - 1], previousType);
    }
  }

  lemma {:induction false} EventsComeFromRecords(records: seq<Json>)
    ensures FromRecords(Events(records), records)
  {
    if records != [] {
      var n := |records| - 1;
      var init, types := records[..n], Types(records[..n]);
      EventsComeFromRecords(init);
      if records[n].Obj? {
        ClaimEventsFrom(n, records[n].fields, ClaimsOf(records[n].fields), PreviousType(types, records[n].fields));
      }
      hide ClaimEvents, Events, PreviousType;
      EventsUnfold(records);
    }
  }

  /** Facts about a traversal that every prefix of it shares. */
  ghost predicate Traversal(events: seq<Event>, records: seq<Json>) {
    FromRecords(events, records) && KnowTypes(events, Types(records))
  }

  lemma TraversalStep(before: seq<Event>, e: Event, records: seq<Json>)
    requires Traversal(before + [e], records)
    ensures Traversal(before, records) && SameRecordAt(before, e)
    ensures e.Claimed? ==> e.claim.Implementation() in Types(records) && e.previousType == Types(records)[e.claim.Implementation()]
  {
    assert forall d :: d in before ==> d in before + [e];
    assert e in before + [e];
  }

  function IdentityBy(json: Json -> string): Claim -> string {
    (c: Claim) => c.Identity(json)
  }

  /** Claims that are sound together: each admissible and of the type of its implementation, none twice. */
  ghost predicate Sound(ctx: Context, claims: seq<Claim>, types: map<string, string>) {
    DistinctBy(IdentityBy(ctx.json), claims)
    && forall c :: c in claims ==>
         Admissible(ctx, c) && c.Implementation() in types && c.ImplementationType() == types[c.Implementation()]
  }

  lemma SoundAppend(ctx: Context, claims: seq<Claim>, types: map<string, string>, c: Claim)
    requires Sound(ctx, claims, types) && Admissible(ctx, c)
    requires c.Implementation() in types && c.ImplementationType() == types[c.Implementation()]
    requires forall d :: d in claims ==> d.Identity(ctx.json) != c.Identity(ctx.json)
    ensures Sound(ctx, claims + [c], types)
  {
    hide Admissible;
    NewIdentity(ctx.json, claims, c);
    assert forall d :: d in claims + [c] ==> d in claims || d == c;
  }

  lemma NewIdentity(json: Json -> string, claims: seq<Claim>, c: Claim)
    requires DistinctBy(IdentityBy(json), claims) && forall d :: d in claims ==> d.Identity(json) != c.Identity(json)
    ensures DistinctBy(IdentityBy(json), claims + [c])
  {
    assert forall i :: 0 <= i < |claims| ==> claims[i] in claims && IdentityBy(json)(claims[i]) != IdentityBy(json)(c);
    hide IdentityBy;
  }

  /**
   * Soundness: over a whole run the accepted claims have pairwise distinct identities, legal targets that
   * exist, and one implementation type for each implementation.
   */
  lemma {:induction false} AcceptedAreSound(ctx: Context, events: seq<Event>, records: seq<Json>)
    requires Traversal(events, records)
    ensures Sound(ctx, Map(ClaimIn, Accepted(ctx, events)), Types(records))
  {
    if events != [] {
      var before, last := events[..|events| - 1], events[|events| - 1];
      assert events == before + [last];
      TraversalStep(before, last, records);
      AcceptedAreSound(ctx, before, records);
      hide Sound, Admissible, FaultsAfter, Accepted, Traversal;
      if last.Claimed? && FaultsAfter(ctx, before, last) == [] {
        FaultlessMeans(ctx, before, last);
        AcceptedGrows(ctx, before, last);
        var claims := Map(ClaimIn, Accepted(ctx, before));
        AcceptedWereClaimed(ctx, before, last.claim.Identity(ctx.json));
        SoundAppend(ctx, claims, Types(records), last.claim);
      } else {
        SameAccepted(ctx, before, last);
      }
    }
  }

  lemma AcceptedGrows(ctx: Context, before: seq<Event>, e: Event)
    requires e.Claimed? && FaultsAfter(ctx, before, e) == []
    ensures Accepted(ctx, before + [e]) == Accepted(ctx, before) + [e]
    ensures Map(ClaimIn, Accepted(ctx, before + [e])) == Map(ClaimIn, Accepted(ctx, before)) + [e.claim]
  {
    hide FaultsAfter;
    assert (before + [e])[..|before|] == before;
    MapConcat(ClaimIn, Accepted(ctx, before), [e]);
  }

  lemma AcceptedWereClaimed(ctx: Context, before: seq<Event>, identity: string)
    requires Unclaimed(ctx.json, before, identity)
    ensures forall d :: d in Map(ClaimIn, Accepted(ctx, before)) ==> d.Identity(ctx.json) != identity
  {
    var accepted := Accepted(ctx, before);
    assert forall i :: 0 <= i < |accepted| ==> accepted[i] in accepted;
  }

  lemma RunIsTraversal(records: seq<Json>)
    ensures Traversal(Events(records), records)
  {
    EventsComeFromRecords(records);
    EventsKnowTypes(records);
  }
}
