/**
 * What a constructed result promises: it exists exactly when every stage succeeds for every part of the
 * request, and then everything in it belongs together.
 */
module ConstructionLaws {
  import opened Prelude
  import opened Ordering
  import opened Grouping
  import opened Renderer
  import opened Sealing
  import opened SourceBasis
  import opened Construction
  import opened ConstructionRun
  import UuidV7

  /* ---------- identities ---------- */

  /** How often the minter is called for these items. */
  function Asks(items: seq<Item>): nat {
    if items == [] then 0 else Asks(items[..|items| - 1]) + if AsksMinter(items[|items| - 1]) then 1 else 0
  }

  /** The identity of the `i`-th item: its own, or what the minter answers when its turn has come. */
  function IdentityAt(items: seq<Item>, i: nat, mint: nat -> Option<string>): Option<Identity>
    requires i < |items|
  {
    Establish(items[i].Operation(), items[i].Supplied(), if AsksMinter(items[i]) then mint(Asks(items[..i])) else None)
  }

  lemma {:induction false} StageMeans(items: seq<Item>, mint: nat -> Option<string>)
    ensures EstablishAll(items, mint).calls == Asks(items)
    ensures EstablishAll(items, mint).troubles == [] <==> forall i: nat :: i < |items| ==> IdentityAt(items, i, mint).Some?
  {
    if items != [] {
      var n := |items| - 1;
      var init := items[..n];
      StageMeans(init, mint);
      assert IdentityAt(items, n, mint) == Establish(items[n].Operation(), items[n].Supplied(),
        if AsksMinter(items[n]) then mint(Asks(init)) else None);
      forall i: nat | i < n ensures IdentityAt(items, i, mint) == IdentityAt(init, i, mint) {
        assert items[..i] == init[..i];
      }
    }
  }

  /** With distinct keys nothing is replaced: every item finds its own identity in the table. */
  lemma {:induction false} OwnIdentity(items: seq<Item>, mint: nat -> Option<string>, i: nat)
    requires EstablishAll(items, mint).troubles == [] && DistinctBy(KeyOf, items) && i < |items|
    ensures var table := EstablishAll(items, mint).table;
            items[i].Key() in table && Some(table[items[i].Key()]) == IdentityAt(items, i, mint)
  {
    var n := |items| - 1;
    var init := items[..n];
    StageMeans(init, mint);
    if i < n {
      assert DistinctBy(KeyOf, init);
      OwnIdentity(init, mint, i);
      assert init[..i] == items[..i];
      assert KeyOf(items[i]) != KeyOf(items[n]);
    }
  }

  /** A supplied identity is preserved. */
  lemma SuppliedIsPreserved(items: seq<Item>, i: nat, mint: nat -> Option<string>)
    requires i < |items| && items[i].Supplied().Some?
    ensures IdentityAt(items, i, mint).Some?
    ensures IdentityAt(items, i, mint).value.id == items[i].Supplied().value && IdentityAt(items, i, mint).value.disposition != Minted
  {
  }

  lemma {:induction false} AsksGrow(items: seq<Item>, i: nat, j: nat)
    requires i < j <= |items|
    ensures Asks(items[..i]) + (if AsksMinter(items[i]) then 1 else 0) <= Asks(items[..j]) <= j
  {
    assert items[..j][..j - 1] == items[..j - 1];
    if i + 1 < j {
      AsksGrow(items, i, j - 1);
    } else {
      AsksAtMost(items[..i]);
    }
  }

  lemma {:induction false} AsksAtMost(items: seq<Item>)
    ensures Asks(items) <= |items|
  {
    if items != [] {
      AsksAtMost(items[..|items| - 1]);
    }
  }

  ghost predicate MintsDistinct(mint: nat -> Option<string>, limit: nat) {
    forall m: nat, n: nat :: m < n < limit && mint(m).Some? && mint(n).Some? ==> mint(m) != mint(n)
  }

  /** Minted identities of one request differ as long as the minter's answers do. */
  lemma MintedIdentitiesDiffer(items: seq<Item>, mint: nat -> Option<string>, i: nat, j: nat)
    requires i < j < |items| && MintsDistinct(mint, |items|)
    requires IdentityAt(items, i, mint).Some? && IdentityAt(items, j, mint).Some?
    requires IdentityAt(items, i, mint).value.disposition == Minted && IdentityAt(items, j, mint).value.disposition == Minted
    ensures IdentityAt(items, i, mint).value.id != IdentityAt(items, j, mint).value.id
  {
    AsksGrow(items, i, j);
    assert mint(Asks(items[..i])) != mint(Asks(items[..j]));
  }

  /* ---------- candidates ---------- */

  ghost predicate MadeOf(w: World, items: seq<Item>, table: Table, request: Request, g: Gathered) {
    AllKnown(items, table)
    && |g.entries| == |items| && |g.fragments| == |items| && |g.artifacts| == |items| && |g.made| == |items|
    && forall i :: 0 <= i < |items| ==> MadeAt(w, items[i], table, request, g, i)
  }

  ghost predicate MadeAt(w: World, item: Item, table: Table, request: Request, g: Gathered, i: nat)
    requires i < |g.entries| && i < |g.fragments| && i < |g.artifacts| && i < |g.made|
  {
    item.Key() in table
    && Make(w, item, table, request) == Ok(g.made[i].1) && g.made[i].0 == item
    && g.entries[i] == EntryOf(item, table[item.Key()], request)
    && g.fragments[i] == CandidateOf(item, table[item.Key()], table, request)
    && g.artifacts[i] == ArtifactToJson(w.encoding, g.made[i].1.artifact)
  }

  /** No trouble in the second stage: every candidate was made, and the lists are aligned with the items. */
  lemma {:induction false} GatheredMeans(w: World, items: seq<Item>, table: Table, request: Request)
    requires AllKnown(items, table)
    ensures var g := GatherAll(w, items, table, request);
            && (g.troubles == [] <==> forall item :: item in items ==> item.Key() in table && Make(w, item, table, request).Ok?)
            && (g.troubles == [] ==> MadeOf(w, items, table, request, g))
  {
    hide Make, ArtifactToJson, EntryOf, CandidateOf, RefFor;
    if items != [] {
      var init, last := items[..|items| - 1], items[|items| - 1];
      assert items == init + [last];
      GatheredMeans(w, init, table, request);
      assert forall item :: item in items <==> item in init || item == last;
      var g, h := GatherAll(w, init, table, request), GatherAll(w, items, table, request);
      assert h == GatherItem(w, g, last, table, request);
      if h.troubles == [] {
        assert forall i :: 0 <= i < |init| ==> MadeAt(w, init[i], table, request, g, i) && items[i] == init[i];
      }
    }
  }

  /** The source built for an item carries its identity, whatever else is added to it. */
  lemma SourceCarriesIdentity(item: Item, identity: Identity, table: Table, request: Request)
    ensures SourceOf(item, identity, table, request).Get("id") == Some(Str(identity.id))
  {
    hide WithDocument, WithCustomType, WithAlias, AliasFor, AliasNameFor;
  }

  lemma RefsTellKeysApart(request: Request, k1: string, k2: string)
    ensures RefFor(request, k1) == RefFor(request, k2) <==> k1 == k2
  {
    var head := request.prefix + "/";
    assert (head + k1)[|head|..] == k1 && (head + k2)[|head|..] == k2;
  }

  lemma MadeArtifact(w: World, item: Item, table: Table, request: Request, made: Made)
    requires item.Key() in table && Make(w, item, table, request) == Ok(made)
    ensures var a := made.artifact;
            && a.requestKey == item.Key() && a.sourceRef == RefFor(request, item.Key()) && a.kind == item.Kind()
            && made.source == SourceOf(item, table[item.Key()], table, request)
            && Intact(w.authority, a) && Stands(w.authority, a, made.source)
  {
    hide Render, SourceOf, SelectorFor, ValidUnder, RefFor;
    var source := SourceOf(item, table[item.Key()], table, request);
    SealedStandsForItsSource(w.authority, item.Key(), RefFor(request, item.Key()), item.Kind(), SelectorFor(item, source),
      request.contract, source, source);
  }

  lemma ArtifactsOfItems(w: World, items: seq<Item>, table: Table, request: Request, g: Gathered)
    requires MadeOf(w, items, table, request, g)
    ensures var artifacts := Map(ArtifactOf, g.made);
            && (forall x :: x in artifacts ==> Intact(w.authority, x))
            && (DistinctBy(RefOf, artifacts) <==> DistinctBy(KeyOf, items))
            && (artifacts == [] <==> items == [])
  {
    hide Make, ArtifactToJson, EntryOf, CandidateOf, RefFor, Intact, Stands;
    var artifacts := Map(ArtifactOf, g.made);
    forall i | 0 <= i < |items|
      ensures Intact(w.authority, artifacts[i]) && artifacts[i].sourceRef == RefFor(request, items[i].Key())
    {
      assert MadeAt(w, items[i], table, request, g, i);
      MadeArtifact(w, items[i], table, request, g.made[i].1);
    }
    forall i, j | 0 <= i < j < |items|
      ensures RefOf(artifacts[i]) == RefOf(artifacts[j]) <==> KeyOf(items[i]) == KeyOf(items[j])
    {
      RefsTellKeysApart(request, items[i].Key(), items[j].Key());
    }
  }

  /* ---------- the whole ---------- */

  /** Everything that a constructed result needs, stated on the request. */
  ghost predicate Constructible(w: World, request: Request) {
    var items := Items(request);
    var table := EstablishAll(items, w.mint).table;
    items != [] && DistinctBy(KeyOf, items)
    && (forall i: nat :: i < |items| ==> IdentityAt(items, i, w.mint).Some?)
    && AllMade(w, items, table, request)
    && Describable(w, items, table, request)
  }

  /** The descriptor of the artifacts has a canonical text, and no interpretation lost a field. */
  ghost predicate Describable(w: World, items: seq<Item>, table: Table, request: Request) {
    AllKnown(items, table)
    && var made := GatherAll(w, items, table, request).made;
       && w.authority.canonical(Descriptor(Sort(BeforeByRef, Map(ArtifactOf, made)))).Some?
       && forall pair :: pair in made ==> !LostContext(pair.0, pair.1)
  }

  /** A gap whose source has a context that its interpretation lacks. */
  ghost predicate LostContext(item: Item, made: Made) {
    item.SemanticType() == "entity/gap" && made.source.Get("context") != None && "context" !in made.fields
  }

  lemma {:induction false} FirstLossMeans(made: seq<(Item, Made)>)
    ensures FirstLoss(made).None? <==> forall pair :: pair in made ==> !LostContext(pair.0, pair.1)
    ensures FirstLoss(made).Some? ==>
              exists i :: 0 <= i < |made| && LostContext(made[i].0, made[i].1) && FirstLoss(made) == Some(made[i].0.Key())
                          && forall j :: 0 <= j < i ==> !LostContext(made[j].0, made[j].1)
  {
    if made != [] {
      var rest := made[1..];
      assert made == [made[0]] + rest;
      FirstLossMeans(rest);
      if !Loses(made[0]) && FirstLoss(rest).Some? {
        var i :| 0 <= i < |rest| && LostContext(rest[i].0, rest[i].1) && FirstLoss(rest) == Some(rest[i].0.Key())
                 && forall j :: 0 <= j < i ==> !LostContext(rest[j].0, rest[j].1);
        assert made[i + 1] == rest[i];
        assert forall j :: 0 < j < i + 1 ==> made[j] == rest[j - 1];
      }
    }
  }

  /**
   * All or nothing, exactly: a request is constructed if and only if it has a part, its keys are distinct,
   * every identity is established and every candidate is made.  Otherwise there is no model; there is a
   * basis only where the round trip lost a field.
   */
  lemma ConstructedExactly(w: World, request: Request, r: Report)
    requires Reports(w, request, r)
    ensures r.outcome == Constructed <==> Constructible(w, request)
    ensures r.outcome != Constructed ==> !r.normalized.Model? && r.troubles != []
    ensures r.basis.Some? <==> r.outcome == Constructed || r.normalized == MismatchModel
  {
    hide GatherAll, EstablishAll, IsBasis, FirstLoss, IdentityAt, Describable, AllMade, ReportsGathered, DistinctBy;
    var items, stage := Items(request), EstablishAll(Items(request), w.mint);
    StageMeans(items, w.mint);
    if stage.troubles == [] {
      WithoutTroubleAllHaveIdentity(items, w.mint);
      GatheredExactly(w, items, stage.table, request, r);
    }
  }

  ghost predicate AllMade(w: World, items: seq<Item>, table: Table, request: Request) {
    forall item :: item in items ==> item.Key() in table && Make(w, item, table, request).Ok?
  }

  lemma GatheredExactly(w: World, items: seq<Item>, table: Table, request: Request, r: Report)
    requires AllKnown(items, table) && ReportsGathered(w, GatherAll(w, items, table, request), r)
    ensures r.outcome == Constructed <==>
              items != [] && DistinctBy(KeyOf, items) && AllMade(w, items, table, request)
              && Describable(w, items, table, request)
    ensures r.outcome != Constructed ==> !r.normalized.Model? && r.troubles != []
    ensures r.basis.Some? <==> r.outcome == Constructed || r.normalized == MismatchModel
  {
    hide GatherAll, IsBasis, FirstLoss, LostContext, Make, MadeOf, DistinctBy, Intact;
    GatheredMeans(w, items, table, request);
    var g := GatherAll(w, items, table, request);
    FirstLossMeans(g.made);
    if g.troubles == [] {
      ArtifactsOfItems(w, items, table, request, g);
    }
  }

  /** Entry, fragment and artifact of one position carry the key and the identity of its item. */
  ghost predicate Together(w: World, request: Request, r: Report, i: nat)
    requires i < |Items(request)| && i < |r.entries| && i < |r.fragments| && i < |r.artifacts|
  {
    var item, identity := Items(request)[i], IdentityAt(Items(request), i, w.mint);
    var table := EstablishAll(Items(request), w.mint).table;
    var artifact := ParsedArtifact(w.encoding, r.artifacts[i]);
    identity.Some?
    && r.entries[i] == EntryOf(item, identity.value, request)
    && r.fragments[i] == CandidateOf(item, identity.value, table, request)
    && artifact.Some? && artifact.value.requestKey == item.Key() && artifact.value.sourceRef == r.entries[i].sourceRef
    && (exists source :: Carries(w, artifact.value, source, item, identity.value, table, request))
  }

  /** The artifact stands for the source of its item, which carries the identity. */
  ghost predicate Carries(
      w: World, artifact: Artifact, source: Json, item: Item, identity: Identity, table: Table, request: Request)
  {
    source == SourceOf(item, identity, table, request) && Stands(w.authority, artifact, source)
    && source.Get("id") == Some(Str(identity.id))
  }

  /**
   * A constructed result is aligned with its request, fragments first; its keys are pairwise distinct
   * although fragments and relationships share one identity table; every artifact carries the identity of
   * its own key; and the basis holds exactly its artifacts, strictly sorted by reference.
   */
  lemma ConstructedBelongsTogether(w: World, request: Request, r: Report)
    requires Faithful(w.encoding) && Reports(w, request, r) && r.outcome == Constructed
    ensures |r.entries| == |r.fragments| == |r.artifacts| == |Items(request)|
    ensures DistinctBy(KeyOf, Items(request))
    ensures forall i: nat :: i < |Items(request)| ==> Together(w, request, r, i)
    ensures BasisOf(w, r)
  {
    hide GatherAll, EstablishAll, FirstLoss, Make, IdentityAt, ParsedArtifact, ArtifactToJson, Faithful, Together, BasisOf,
      DistinctBy, MadeOf, IsBasis, Sealable, Intact;
    var items, stage := Items(request), EstablishAll(Items(request), w.mint);
    StageMeans(items, w.mint);
    WithoutTroubleAllHaveIdentity(items, w.mint);
    GatheredMeans(w, items, stage.table, request);
    var g := GatherAll(w, items, stage.table, request);
    ArtifactsOfItems(w, items, stage.table, request, g);
    assert DistinctBy(RefOf, Map(ArtifactOf, g.made)) by { SealableIsDistinct(w, Map(ArtifactOf, g.made)); }
    assert |g.entries| == |items| && |g.fragments| == |items| && |g.artifacts| == |items| by { MadeLengths(w, items, stage.table, request, g); }
    forall i: nat | i < |items| ensures Together(w, request, r, i) {
      OneTogether(w, request, r, g, i);
    }
    BasisHoldsArtifacts(w, items, stage.table, request, g, r);
  }

  lemma SealableIsDistinct(w: World, artifacts: seq<Artifact>)
    requires Sealable(w.authority, artifacts)
    ensures DistinctBy(RefOf, artifacts)
  {
  }

  lemma MadeLengths(w: World, items: seq<Item>, table: Table, request: Request, g: Gathered)
    requires MadeOf(w, items, table, request, g)
    ensures |g.entries| == |items| && |g.fragments| == |items| && |g.artifacts| == |items| && |g.made| == |items|
  {
  }

  /** The basis is strictly sorted and its artifacts are those of the result, in JSON form, none more. */
  ghost predicate BasisOf(w: World, r: Report) {
    r.basis.Some? && StrictlySorted(r.basis.value.artifacts) && |r.basis.value.artifacts| == |r.artifacts|
    && forall i :: 0 <= i < |r.artifacts| ==>
         ParsedArtifact(w.encoding, r.artifacts[i]).Some?
         && ParsedArtifact(w.encoding, r.artifacts[i]).value in r.basis.value.artifacts
  }

  lemma BasisHoldsArtifacts(w: World, items: seq<Item>, table: Table, request: Request, g: Gathered, r: Report)
    requires Faithful(w.encoding) && MadeOf(w, items, table, request, g) && r.artifacts == g.artifacts
    requires r.basis.Some? && IsBasis(w.authority, Map(ArtifactOf, g.made), r.basis.value)
    ensures BasisOf(w, r)
  {
    hide Make, ParsedArtifact, ArtifactToJson, Faithful, EntryOf, CandidateOf;
    var artifacts := Map(ArtifactOf, g.made);
    assert |multiset(r.basis.value.artifacts)| == |multiset(artifacts)|;
    forall i | 0 <= i < |r.artifacts|
      ensures ParsedArtifact(w.encoding, r.artifacts[i]) == Some(artifacts[i]) && artifacts[i] in r.basis.value.artifacts
    {
      assert MadeAt(w, items[i], table, request, g, i);
      ArtifactJsonRoundTrip(w.encoding, artifacts[i]);
      SameMembers(artifacts, r.basis.value.artifacts, artifacts[i]);
    }
  }

  lemma OneTogether(w: World, request: Request, r: Report, g: Gathered, i: nat)
    requires var items, stage := Items(request), EstablishAll(Items(request), w.mint);
             && stage.troubles == [] && DistinctBy(KeyOf, items) && i < |items|
             && MadeOf(w, items, stage.table, request, g)
             && r.entries == g.entries && r.fragments == g.fragments && r.artifacts == g.artifacts
    requires Faithful(w.encoding)
    ensures Together(w, request, r, i)
  {
    hide EstablishAll, Make, IdentityAt, ParsedArtifact, ArtifactToJson, Faithful, SourceOf, Stands, RefFor;
    var items, table := Items(request), EstablishAll(Items(request), w.mint).table;
    assert MadeAt(w, items[i], table, request, g, i);
    OwnIdentity(items, w.mint, i);
    var identity := table[items[i].Key()];
    var made := g.made[i].1;
    ArtifactJsonRoundTrip(w.encoding, made.artifact);
    MadeArtifact(w, items[i], table, request, made);
    SourceCarriesIdentity(items[i], identity, table, request);
    assert Carries(w, made.artifact, made.source, items[i], identity, table, request);
  }

  /**
   * Endpoints: an endpoint that names a part of the request becomes the identity of that part, and any
   * other endpoint becomes the empty id.
   */
  lemma EndpointsNameTheirTargets(w: World, request: Request, target: string, j: nat)
    requires var items := Items(request);
             EstablishAll(items, w.mint).troubles == [] && DistinctBy(KeyOf, items) && j < |items|
    ensures var items := Items(request);
            var table := EstablishAll(items, w.mint).table;
            && (items[j].Key() == target ==> Some(EndpointId(Some(target), table)) == IdOf(IdentityAt(items, j, w.mint)))
            && ((forall item :: item in items ==> item.Key() != target) ==> EndpointId(Some(target), table) == "")
  {
    OwnIdentity(Items(request), w.mint, j);
    TableHasOnlyKeys(Items(request), w.mint);
  }

  /** An id that an endpoint of a relationship is to have: that of the part it names, or the empty one. */
  ghost predicate Points(w: World, request: Request, endpoint: Endpoint, id: Option<Json>) {
    var items := Items(request);
    (forall j: nat :: j < |items| && endpoint == Some(items[j].Key()) ==>
       IdentityAt(items, j, w.mint).Some? && id == Some(Str(IdentityAt(items, j, w.mint).value.id)))
    && ((forall item :: item in items ==> endpoint != Some(item.Key())) ==> id == Some(Str("")))
  }

  /** A source that joins the two parts of the request which the relationship names. */
  ghost predicate Joins(w: World, request: Request, relationship: Relationship, source: Json) {
    source.Get("relationship_type") == Some(Str(relationship.semanticType))
    && Points(w, request, relationship.source, source.Get("from_entity_id"))
    && Points(w, request, relationship.target, source.Get("to_entity_id"))
  }

  lemma EndpointPoints(w: World, request: Request, endpoint: Endpoint)
    requires EstablishAll(Items(request), w.mint).troubles == [] && DistinctBy(KeyOf, Items(request))
    ensures Points(w, request, endpoint, Some(Str(EndpointId(endpoint, EstablishAll(Items(request), w.mint).table))))
  {
    hide EstablishAll, IdentityAt;
    var items := Items(request);
    if endpoint.Some? {
      forall j: nat | j < |items|
        ensures var table := EstablishAll(items, w.mint).table;
                && (items[j].Key() == endpoint.value ==> Some(EndpointId(endpoint, table)) == IdOf(IdentityAt(items, j, w.mint)))
                && ((forall item :: item in items ==> item.Key() != endpoint.value) ==> EndpointId(endpoint, table) == "")
      {
        EndpointsNameTheirTargets(w, request, endpoint.value, j);
      }
      if items == [] {
        NothingEstablished(w.mint);
      } else {
        assert items[0] in items;
      }
    }
  }

  lemma NothingEstablished(mint: nat -> Option<string>)
    ensures EstablishAll([], mint).table == map[]
  {
  }

  /**
   * Endpoints, in the result: in a constructed result the artifact of a relationship stands for one source
   * only, and that source joins the identities of exactly the two parts that the relationship names.
   */
  lemma RelationshipsJoinTheirParts(w: World, request: Request, r: Report, i: nat)
    requires Faithful(w.encoding) && Reports(w, request, r) && r.outcome == Constructed
    requires i < |Items(request)| && Items(request)[i].OfRelationship?
    ensures |r.artifacts| == |Items(request)| && ParsedArtifact(w.encoding, r.artifacts[i]).Some?
    ensures var artifact := ParsedArtifact(w.encoding, r.artifacts[i]).value;
            exists source :: Joins(w, request, Items(request)[i].relationship, source)
                             && forall value :: Stands(w.authority, artifact, value) <==> value == source
  {
    hide *;
    ConstructedBelongsTogether(w, request, r);
    NoTroubles(w, request, r);
    var source := SourceBehind(w, request, r, i);
    SourceJoins(w, request, Items(request)[i].relationship, IdentityAt(Items(request), i, w.mint).value);
    OneStands(w.authority, ParsedArtifact(w.encoding, r.artifacts[i]).value, source);
  }

  /** The source for which the artifact of a relationship stands. */
  lemma SourceBehind(w: World, request: Request, r: Report, i: nat) returns (source: Json)
    requires i < |Items(request)| && i < |r.entries| && i < |r.fragments| && i < |r.artifacts|
    requires Together(w, request, r, i) && Items(request)[i].OfRelationship?
    ensures ParsedArtifact(w.encoding, r.artifacts[i]).Some? && IdentityAt(Items(request), i, w.mint).Some?
    ensures Stands(w.authority, ParsedArtifact(w.encoding, r.artifacts[i]).value, source)
    ensures var identity, table := IdentityAt(Items(request), i, w.mint).value, EstablishAll(Items(request), w.mint).table;
            source == RelationshipSource(Items(request)[i].relationship, identity, table)
  {
    hide EstablishAll, IdentityAt, ParsedArtifact, Stands, RelationshipSource, EntryOf, CandidateOf, Items;
    var items, table := Items(request), EstablishAll(Items(request), w.mint).table;
    var artifact, identity := ParsedArtifact(w.encoding, r.artifacts[i]).value, IdentityAt(items, i, w.mint).value;
    source :| Carries(w, artifact, source, items[i], identity, table, request);
  }

  lemma SourceJoins(w: World, request: Request, relationship: Relationship, identity: Identity)
    requires EstablishAll(Items(request), w.mint).troubles == [] && DistinctBy(KeyOf, Items(request))
    ensures Joins(w, request, relationship,
              RelationshipSource(relationship, identity, EstablishAll(Items(request), w.mint).table))
  {
    hide EstablishAll, Points, DistinctBy, EndpointId;
    EndpointPoints(w, request, relationship.source);
    EndpointPoints(w, request, relationship.target);
  }

  lemma NoTroubles(w: World, request: Request, r: Report)
    requires Reports(w, request, r) && r.outcome == Constructed
    ensures EstablishAll(Items(request), w.mint).troubles == []
  {
  }

  lemma OneStands(a: Authority, artifact: Artifact, source: Json)
    requires Stands(a, artifact, source)
    ensures forall value :: Stands(a, artifact, value) <==> value == source
  {
    hide Renders, ValidUnder;
    forall value | Stands(a, artifact, value) ensures value == source {
      OnlyDecodedRenders(a, artifact, value);
      OnlyDecodedRenders(a, artifact, source);
    }
  }

  function IdOf(identity: Option<Identity>): Option<string> {
    match identity
    case Some(i) => Some(i.id)
    case None => None
  }

  lemma {:induction false} TableHasOnlyKeys(items: seq<Item>, mint: nat -> Option<string>)
    ensures forall key :: key in EstablishAll(items, mint).table ==> exists item :: item in items && item.Key() == key
  {
    if items != [] {
      var init, last := items[..|items| - 1], items[|items| - 1];
      TableHasOnlyKeys(init, mint);
      assert items == init + [last];
      assert forall item :: item in init ==> item in items;
    }
  }

  /** The minter of version 7 UUIDs, by the number of the call. */
  function UuidMinter(start: nat, clocks: seq<nat>): nat -> Option<string>
    requires start < 0x1_0000
  {
    (n: nat) => if n < |clocks| then Some(UuidV7.Minted(start, clocks, n)) else None
  }

  /** Whatever the clock does, the identities minted for one request of up to 4096 items are distinct. */
  lemma UuidMinterKeepsIdentitiesApart(start: nat, clocks: seq<nat>, items: seq<Item>, i: nat, j: nat)
    requires start < 0x1_0000 && i < j < |items| <= 0x1000
    requires var mint := UuidMinter(start, clocks);
             && IdentityAt(items, i, mint).Some? && IdentityAt(items, j, mint).Some?
             && IdentityAt(items, i, mint).value.disposition == Minted && IdentityAt(items, j, mint).value.disposition == Minted
    ensures var mint := UuidMinter(start, clocks); IdentityAt(items, i, mint).value.id != IdentityAt(items, j, mint).value.id
  {
    hide IdentityAt, UuidMinter, MintsDistinct;
    UuidMintsDistinct(start, clocks, |items|);
    MintedIdentitiesDiffer(items, UuidMinter(start, clocks), i, j);
  }

  lemma UuidMintsDistinct(start: nat, clocks: seq<nat>, limit: nat)
    requires start < 0x1_0000 && limit <= 0x1000
    ensures MintsDistinct(UuidMinter(start, clocks), limit)
  {
    hide UuidV7.Minted;
    UuidV7.WindowIsDistinct(start, clocks, 0);
  }
}
