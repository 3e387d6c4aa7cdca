/** The order of the records: exactly when a successful run succeeds in every order. */
module LinkageOrder {
  import opened Prelude
  import opened Grouping
  import opened Linkage
  import opened LinkageSoundness
  import opened LinkageSuccess

  ghost predicate Permuted(s: seq<Json>, t: seq<Json>) {
    multiset(s) == multiset(t)
  }

  function ImplementationOf(raw: Json): string {
    if raw.Obj? then Text(raw.fields, "implementation_entity_id") else ""
  }

  function TypeOf(raw: Json): string {
    if raw.Obj? then Text(raw.fields, "implementation_entity_type") else ""
  }

  /**
   * The records of an implementation that somewhere makes a claim give it one type.  A record without a
   * claim object counts: it is silent itself, but it can be the first to fix the type.
   */
  ghost predicate TypesAgree(records: seq<Json>) {
    forall raw, c :: raw in records && raw.Obj? && c in AllClaims(records) && ImplementationOf(raw) == c.Implementation() ==>
      TypeOf(raw) == c.ImplementationType()
  }

  lemma {:induction false} TypesComeFromRecords(records: seq<Json>, id: string)
    ensures id in Types(records) <==> exists raw :: raw in records && raw.Obj? && ImplementationOf(raw) == id
    ensures id in Types(records) ==>
              exists raw :: raw in records && raw.Obj? && ImplementationOf(raw) == id && TypeOf(raw) == Types(records)[id]
  {
    if records != [] {
      var n := |records| - 1;
      TypesComeFromRecords(records[..n], id);
      assert records == records[..n] + [records[n]];
      assert forall raw :: raw in records <==> raw in records[..n] || raw == records[n];
    }
  }

  /** The first record of an implementation fixes its type. */
  lemma {:induction false} FirstFixesType(first: Json, rest: seq<Json>)
    requires first.Obj?
    ensures var types := Types([first] + rest); ImplementationOf(first) in types && types[ImplementationOf(first)] == TypeOf(first)
  {
    if rest == [] {
      assert [first] + rest == [first];
      assert [first][..0] == [];
    } else {
      var n := |rest| - 1;
      FirstFixesType(first, rest[..n]);
      assert ([first] + rest)[..n + 1] == [first] + rest[..n];
    }
  }

  lemma {:induction false} ObjectClaimsOf(record: Fields, claims: seq<Json>)
    ensures forall c :: c in ObjectClaims(record, claims) ==> c.record == record
  {
    if claims != [] {
      ObjectClaimsOf(record, claims[..|claims| - 1]);
    }
  }

  /** Every claim belongs to one of the records. */
  lemma ClaimHasRecord(records: seq<Json>, c: Claim)
    requires c in AllClaims(records)
    ensures Obj(c.record) in records
  {
    GatherMembers(RecordClaims, records, c);
    var raw :| raw in records && c in RecordClaims(raw);
    ObjectClaimsOf(raw.fields, ClaimsOf(raw.fields));
  }

  lemma ClaimsPermuted(s: seq<Json>, t: seq<Json>)
    requires Permuted(s, t)
    ensures multiset(AllClaims(s)) == multiset(AllClaims(t))
    ensures forall c :: c in AllClaims(s) <==> c in AllClaims(t)
  {
    GatherPermuted(RecordClaims, s, t);
    forall c ensures c in AllClaims(s) <==> c in AllClaims(t) {
      SameMembers(AllClaims(s), AllClaims(t), c);
    }
  }

  lemma RecordsPermuted(s: seq<Json>, t: seq<Json>)
    requires Permuted(s, t)
    ensures forall raw :: raw in s <==> raw in t
  {
    forall raw ensures raw in s <==> raw in t {
      SameMembers(s, t, raw);
    }
  }

  lemma OrderlyPermuted(ctx: Context, s: seq<Json>, t: seq<Json>)
    requires Permuted(s, t) && Orderly(ctx, s) && TypesAgree(s)
    ensures Orderly(ctx, t) && TypesAgree(t)
  {
    hide Admissible, AllClaims, WellAttributed;
    ClaimsPermuted(s, t);
    RecordsPermuted(s, t);
    DistinctByPermuted(IdentityBy(ctx.json), AllClaims(s), AllClaims(t));
    forall c | c in AllClaims(t)
      ensures c.Implementation() in Types(t) && c.ImplementationType() == Types(t)[c.Implementation()]
    {
      ClaimHasRecord(t, c);
      TypesComeFromRecords(t, c.Implementation());
      assert ImplementationOf(Obj(c.record)) == c.Implementation();
      var raw :| raw in t && raw.Obj? && ImplementationOf(raw) == c.Implementation()
                 && TypeOf(raw) == Types(t)[c.Implementation()];
    }
  }

  lemma DisagreementShows(ctx: Context, s: seq<Json>, raw: Json, c: Claim) returns (t: seq<Json>)
    requires raw in s && raw.Obj? && c in AllClaims(s) && ImplementationOf(raw) == c.Implementation()
    requires TypeOf(raw) != c.ImplementationType()
    ensures Permuted(s, t) && !Orderly(ctx, t)
  {
    hide Admissible, AllClaims, WellAttributed, Types;
    var k :| 0 <= k < |s| && s[k] == raw;
    var rest := s[..k] + s[k + 1..];
    t := [raw] + rest;
    WithoutMultiset(s, k);
    ClaimsPermuted(s, t);
    FirstFixesType(raw, rest);
  }

  /**
   * Order-freedom of success, exactly: a list of records succeeds in every order if and only if it
   * succeeds as it stands and its implementation types agree.
   */
  lemma SucceedsInEveryOrder(ctx: Context, s: seq<Json>)
    ensures (forall t :: Permuted(s, t) ==> ReportOf(ctx.json, Settle(ctx, Events(t))).success)
       <==> ReportOf(ctx.json, Settle(ctx, Events(s))).success && TypesAgree(s)
  {
    hide Settle, ReportOf, Orderly, TypesAgree;
    forall t ensures ReportOf(ctx.json, Settle(ctx, Events(t))).success <==> Orderly(ctx, t) {
      SuccessMeans(ctx, t);
    }
    assert Permuted(s, s);
    if Orderly(ctx, s) && TypesAgree(s) {
      forall t | Permuted(s, t) ensures Orderly(ctx, t) {
        OrderlyPermuted(ctx, s, t);
      }
    } else if Orderly(ctx, s) {
      var raw, c := Disagreement(s);
      var t := DisagreementShows(ctx, s, raw, c);
      assert Permuted(s, t) && !ReportOf(ctx.json, Settle(ctx, Events(t))).success;
    }
  }

  lemma Disagreement(s: seq<Json>) returns (raw: Json, c: Claim)
    requires !TypesAgree(s)
    ensures raw in s && raw.Obj? && c in AllClaims(s) && ImplementationOf(raw) == c.Implementation()
    ensures TypeOf(raw) != c.ImplementationType()
  {
    raw, c :| raw in s && raw.Obj? && c in AllClaims(s) && ImplementationOf(raw) == c.Implementation()
              && TypeOf(raw) != c.ImplementationType();
  }

  const SILENT := map["implementation_entity_id" := Str("a"), "implementation_entity_type" := Str("x")]
  const CLAIM := map["relationship" := Str("embodies"), "target_entity_id" := Str("t")]
  const SPEAKING := map["implementation_entity_id" := Str("a"), "implementation_entity_type" := Str("y"), "claims" := Arr([Obj(CLAIM)])]

  /**
   * Success alone is not order-free: outside greenfield a record without claims is only warned about, but
   * where it comes first it fixes the type of its implementation.
   */
  lemma SilentRecordShowsOrder(json: Json -> string)
    ensures var ctx := Context(Brownfield, V16, map["t" := map["entity_type" := Str("system")]], json);
            && ReportOf(json, Settle(ctx, Events([Obj(SPEAKING), Obj(SILENT)]))).success
            && !ReportOf(json, Settle(ctx, Events([Obj(SILENT), Obj(SPEAKING)]))).success
  {
    var ctx := Context(Brownfield, V16, map["t" := map["entity_type" := Str("system")]], json);
    var speaking, silent, c := Obj(SPEAKING), Obj(SILENT), Claim(SPEAKING, CLAIM);
    ClaimsOfBoth(speaking, silent, c);
    ClaimIsAdmissible(json);
    hide Settle, ReportOf, Events, Admissible, AllClaims;
    TypeFixedByFirst(ctx, speaking, silent, c);
  }

  /** Of two records of one implementation that disagree on its type, the claim of one passes only if it leads. */
  lemma TypeFixedByFirst(ctx: Context, speaking: Json, silent: Json, c: Claim)
    requires WellAttributed(ctx, speaking) && WellAttributed(ctx, silent) && Admissible(ctx, c)
    requires AllClaims([speaking, silent]) == [c] && AllClaims([silent, speaking]) == [c]
    requires ImplementationOf(speaking) == c.Implementation() == ImplementationOf(silent)
    requires TypeOf(speaking) == c.ImplementationType() != TypeOf(silent)
    ensures ReportOf(ctx.json, Settle(ctx, Events([speaking, silent]))).success
    ensures !ReportOf(ctx.json, Settle(ctx, Events([silent, speaking]))).success
  {
    hide Settle, ReportOf, Events, Admissible, AllClaims, Types;
    SuccessMeans(ctx, [speaking, silent]);
    SuccessMeans(ctx, [silent, speaking]);
    FirstFixesType(speaking, [silent]);
    FirstFixesType(silent, [speaking]);
    assert [speaking] + [silent] == [speaking, silent] && [silent] + [speaking] == [silent, speaking];
    assert c in AllClaims([silent, speaking]);
  }

  lemma ClaimIsAdmissible(json: Json -> string)
    ensures Admissible(Context(Brownfield, V16, map["t" := map["entity_type" := Str("system")]], json), Claim(SPEAKING, CLAIM))
    ensures var c := Claim(SPEAKING, CLAIM); c.Implementation() == "a" && c.ImplementationType() == "y"
    ensures ImplementationOf(Obj(SPEAKING)) == "a" == ImplementationOf(Obj(SILENT))
    ensures TypeOf(Obj(SPEAKING)) == "y" && TypeOf(Obj(SILENT)) == "x"
  {
  }

  lemma ClaimsOfBoth(speaking: Json, silent: Json, c: Claim)
    requires speaking == Obj(SPEAKING) && silent == Obj(SILENT) && c == Claim(SPEAKING, CLAIM)
    ensures AllClaims([speaking, silent]) == [c] && AllClaims([silent, speaking]) == [c]
  {
    SpeakingClaims();
    hide RecordClaims;
    GatherTwo(RecordClaims, speaking, silent);
    GatherTwo(RecordClaims, silent, speaking);
    assert [c] + [] == [c] && [] + [c] == [c];
  }

  lemma SpeakingClaims()
    ensures RecordClaims(Obj(SPEAKING)) == [Claim(SPEAKING, CLAIM)] && RecordClaims(Obj(SILENT)) == []
  {
    assert ClaimsOf(SPEAKING) == [Obj(CLAIM)] && [Obj(CLAIM)][..0] == [];
    assert ObjectClaims(SPEAKING, []) == [];
  }
}
