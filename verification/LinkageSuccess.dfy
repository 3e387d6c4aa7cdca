/** Success, stated on the records alone. */
module LinkageSuccess {
  import opened Prelude
  import opened Grouping
  import opened Linkage
  import opened LinkageRun
  import opened LinkageLaws
  import opened LinkageSoundness

  /* ---------- errors ---------- */

  ghost predicate NoErrors(ctx: Context, events: seq<Event>) {
    CountOf(Settle(ctx, events).diagnostics, Error) == 0
  }

  ghost predicate Harmless(ctx: Context, before: seq<Event>, e: Event) {
    match e
    case BadRecord(_) => false
    case Unattributed(_) => ctx.profile != Greenfield
    case Claimed(_, _, _, _) => FaultsAfter(ctx, before, e) == []
  }

  lemma {:induction false} CountConcat(s: seq<Diagnostic>, t: seq<Diagnostic>, severity: Severity)
    ensures CountOf(s + t, severity) == CountOf(s, severity) + CountOf(t, severity)
  {
    if t == [] {
      assert s + t == s;
    } else {
      var n := |t| - 1;
      CountConcat(s, t[..n], severity);
      assert (s + t)[..|s + t| - 1] == s + t[..n];
    }
  }

  lemma {:induction false} ErrorsCount(diagnostics: seq<Diagnostic>)
    requires AllErrors(diagnostics)
    ensures CountOf(diagnostics, Error) == |diagnostics|
  {
    if diagnostics != [] {
      ErrorsCount(diagnostics[..|diagnostics| - 1]);
    }
  }

  /** What a step adds to the diagnostics. */
  ghost function Added(ctx: Context, before: seq<Event>, e: Event): seq<Diagnostic> {
    match e
    case BadRecord(at) => [Diagnostic(Error, InvalidRecord, OfRecord(at))]
    case Unattributed(at) => [Diagnostic(if ctx.profile == Greenfield then Error else Warning, MissingClaims, OfClaims(at))]
    case Claimed(_, _, c, _) =>
      var faults := FaultsAfter(ctx, before, e);
      if faults != [] then faults else
      FaultlessTargetExists(ctx, e, SeenInRecord(before, e.at, c.PairKey()), Prior(ctx.json, before, c.Identity(ctx.json)));
      Warnings(ctx, e)
  }

  lemma StepAdds(ctx: Context, before: seq<Event>, e: Event)
    ensures Settle(ctx, before + [e]).diagnostics == Settle(ctx, before).diagnostics + Added(ctx, before, e)
  {
    hide Settle, Faults, SeenInRecord, Prior, Warnings, Admit, RejectionKey, RejectionOf;
    SettleStep(ctx, before, e);
  }

  lemma HarmlessAdds(ctx: Context, before: seq<Event>, e: Event)
    ensures CountOf(Added(ctx, before, e), Error) == 0 <==> Harmless(ctx, before, e)
  {
    hide Faults, SeenInRecord, Prior;
    if e.Claimed? {
      var repeated, prior := SeenInRecord(before, e.at, e.claim.PairKey()), Prior(ctx.json, before, e.claim.Identity(ctx.json));
      FaultsAreErrors(ctx, e, repeated, prior);
      if FaultsAfter(ctx, before, e) != [] {
        ErrorsCount(FaultsAfter(ctx, before, e));
      }
    }
  }

  lemma NoErrorsStep(ctx: Context, before: seq<Event>, e: Event)
    ensures NoErrors(ctx, before + [e]) <==> NoErrors(ctx, before) && Harmless(ctx, before, e)
  {
    hide Settle, Added, Harmless, CountOf;
    StepAdds(ctx, before, e);
    CountConcat(Settle(ctx, before).diagnostics, Added(ctx, before, e), Error);
    HarmlessAdds(ctx, before, e);
  }

  /* ---------- success ---------- */

  ghost predicate Fine(ctx: Context, e: Event) {
    !e.BadRecord? && (e.Unattributed? ==> ctx.profile != Greenfield)
  }

  ghost predicate AllFine(ctx: Context, events: seq<Event>) {
    forall e :: e in events ==> Fine(ctx, e)
  }

  lemma SoundPrefix(ctx: Context, claims: seq<Claim>, types: map<string, string>, c: Claim)
    requires Sound(ctx, claims + [c], types)
    ensures Sound(ctx, claims, types) && Admissible(ctx, c)
    ensures c.Implementation() in types && c.ImplementationType() == types[c.Implementation()]
    ensures forall d :: d in claims ==> d.Identity(ctx.json) != c.Identity(ctx.json)
  {
    var all := claims + [c];
    assert all[|claims|] == c && c in all;
    assert forall i :: 0 <= i < |claims| ==> all[i] == claims[i];
    assert forall d :: d in claims ==> d in all;
    assert IdentityBy(ctx.json)(c) == c.Identity(ctx.json);
  }

  lemma {:induction false} UnclaimedMeans(json: Json -> string, before: seq<Event>, identity: string)
    ensures Unclaimed(json, before, identity) <==> forall d :: d in Map(ClaimIn, ClaimsIn(before)) ==> d.Identity(json) != identity
  {
    if before != [] {
      var n := |before| - 1;
      UnclaimedMeans(json, before[..n], identity);
      assert before == before[..n] + [before[n]];
      if before[n].Claimed? {
        MapConcat(ClaimIn, ClaimsIn(before[..n]), [before[n]]);
        assert Map(ClaimIn, [before[n]]) == [before[n].claim];
      } else {
        assert ClaimsIn(before[..n]) + [] == ClaimsIn(before[..n]);
      }
    }
  }

  lemma ClaimsInStep(before: seq<Event>, e: Event)
    ensures Map(ClaimIn, ClaimsIn(before + [e])) == Map(ClaimIn, ClaimsIn(before)) + if e.Claimed? then [e.claim] else []
    ensures ClaimsIn(before + [e]) == ClaimsIn(before) + if e.Claimed? then [e] else []
  {
    assert (before + [e])[..|before|] == before;
  }

  /** A run has no errors exactly when its records are in order and its claims are sound together. */
  lemma {:induction false} NoErrorsMeans(ctx: Context, events: seq<Event>, records: seq<Json>)
    requires Traversal(events, records)
    ensures NoErrors(ctx, events) <==> AllFine(ctx, events) && Sound(ctx, Map(ClaimIn, ClaimsIn(events)), Types(records))
    ensures NoErrors(ctx, events) ==> Accepted(ctx, events) == ClaimsIn(events)
  {
    if events == [] {
      assert Map(ClaimIn, ClaimsIn([])) == [];
    } else {
      var before, last := events[..|events| - 1], events[|events| - 1];
      assert events == before + [last];
      TraversalStep(before, last, records);
      NoErrorsMeans(ctx, before, records);
      hide NoErrors, Sound, Traversal, Settle, Accepted, ClaimsIn, AllFine, FaultsAfter, Map;
      NoErrorsStep(ctx, before, last);
      ClaimsInStep(before, last);
      AcceptedStep(ctx, before, last);
      FineStep(ctx, before, last);
      var claims := Map(ClaimIn, ClaimsIn(before));
      if last.Claimed? {
        ClaimMeans(ctx, before, last, records);
      } else {
        assert claims + [] == claims;
      }
    }
  }

  lemma FineStep(ctx: Context, before: seq<Event>, e: Event)
    ensures AllFine(ctx, before + [e]) <==> AllFine(ctx, before) && Fine(ctx, e)
  {
    assert forall x :: x in before + [e] <==> x in before || x == e;
  }

  lemma AcceptedStep(ctx: Context, before: seq<Event>, e: Event)
    ensures Harmless(ctx, before, e) ==> Accepted(ctx, before + [e]) == Accepted(ctx, before) + if e.Claimed? then [e] else []
  {
    hide FaultsAfter;
    if e.Claimed? && FaultsAfter(ctx, before, e) == [] {
      AcceptedGrows(ctx, before, e);
    } else if !e.Claimed? {
      SameAccepted(ctx, before, e);
    }
  }

  lemma ClaimMeans(ctx: Context, before: seq<Event>, e: Event, records: seq<Json>)
    requires Traversal(before + [e], records) && e.Claimed?
    ensures var claims := Map(ClaimIn, ClaimsIn(before));
            Sound(ctx, claims + [e.claim], Types(records)) <==>
              Sound(ctx, claims, Types(records)) && FaultsAfter(ctx, before, e) == []
  {
    hide Sound, FaultsAfter, Admissible, Unclaimed, Traversal;
    var claims := Map(ClaimIn, ClaimsIn(before));
    TraversalStep(before, e, records);
    FaultlessMeans(ctx, before, e);
    UnclaimedMeans(ctx.json, before, e.claim.Identity(ctx.json));
    if Sound(ctx, claims + [e.claim], Types(records)) {
      SoundPrefix(ctx, claims, Types(records), e.claim);
    }
    if Sound(ctx, claims, Types(records)) && FaultsAfter(ctx, before, e) == [] {
      SoundAppend(ctx, claims, Types(records), e.claim);
    }
  }

  /* ---------- success, on the records ---------- */

  ghost predicate WellAttributed(ctx: Context, raw: Json) {
    raw.Obj? && (ctx.profile == Greenfield ==> ClaimsOf(raw.fields) != [])
  }

  /** Every record is an object with claims where they are required, and all claims are sound together. */
  ghost predicate Orderly(ctx: Context, records: seq<Json>) {
    (forall raw :: raw in records ==> WellAttributed(ctx, raw)) && Sound(ctx, AllClaims(records), Types(records))
  }

  lemma {:induction false} AllFineMeans(ctx: Context, records: seq<Json>)
    ensures AllFine(ctx, Events(records)) <==> forall raw :: raw in records ==> WellAttributed(ctx, raw)
  {
    if records != [] {
      var n := |records| - 1;
      var types := Types(records[..n]);
      AllFineMeans(ctx, records[..n]);
      RecordFine(ctx, n, records[n], types);
      hide Events, RecordEvents, WellAttributed, Fine;
      EventsUnfold(records);
      assert records == records[..n] + [records[n]];
    }
  }

  lemma RecordFine(ctx: Context, at: nat, raw: Json, types: map<string, string>)
    ensures AllFine(ctx, RecordEvents(at, raw, types)) <==> WellAttributed(ctx, raw)
  {
    if raw.Obj? {
      var claims := ClaimsOf(raw.fields);
      ClaimEventsAt(at, raw.fields, claims, PreviousType(types, raw.fields));
      hide ClaimEvents;
      if claims == [] {
        assert Unattributed(at) in RecordEvents(at, raw, types);
      }
    } else {
      assert BadRecord(at) in RecordEvents(at, raw, types);
    }
  }

  /** Success of the whole operation, without the fold: a condition on the records. */
  lemma SuccessMeans(ctx: Context, records: seq<Json>)
    ensures ReportOf(ctx.json, Settle(ctx, Events(records))).success <==> Orderly(ctx, records)
    ensures Orderly(ctx, records) ==> Map(ClaimIn, Accepted(ctx, Events(records))) == AllClaims(records)
  {
    hide Settle, Sound, Events, LinksOf, AllFine, WellAttributed, Traversal;
    RunIsTraversal(records);
    NoErrorsMeans(ctx, Events(records), records);
    EventsCarryClaims(records);
    AllFineMeans(ctx, records);
  }

  /** Success implies that nothing was rejected. */
  lemma SuccessRejectsNothing(ctx: Context, records: seq<Json>)
    requires ReportOf(ctx.json, Settle(ctx, Events(records))).success
    ensures ReportOf(ctx.json, Settle(ctx, Events(records))).rejected == []
  {
    hide Settle, Events, Accepted, Refused, LinksOf, Traversal, Sound, AllFine;
    RunIsTraversal(records);
    NoErrorsMeans(ctx, Events(records), records);
    EachClaimOnce(ctx, Events(records));
    RefusedAreReported(ctx, Events(records));
    var accepted, refused := Accepted(ctx, Events(records)), Refused(ctx, Events(records));
    assert |multiset(accepted) + multiset(refused)| == |accepted| + |refused|;
    assert |multiset(ClaimsIn(Events(records)))| == |ClaimsIn(Events(records))|;
  }
}
