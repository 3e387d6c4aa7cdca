/** Authoring construction, stage by stage: identities, candidates, basis, round-trip check. */
module ConstructionRun {
  import opened Prelude
  import opened Ordering
  import opened Grouping
  import opened Renderer
  import opened Sealing
  import opened SourceBasis
  import opened Construction

  /**
   * What construction works with: the sealing authority, the encoding of texts, the interpreter of an
   * accepted artifact (its fields, if it can be interpreted), and the minter, by the number of the call.
   */
  datatype World = World(
    authority: Authority, encoding: Encoding, interpret: (Artifact, Json) -> Option<Fields>, mint: nat -> Option<string>)

  datatype Trouble =
    | IdentityUnavailable(key: string) | SourceUnavailable(key: string) | InterpretationUnavailable(key: string)
    | BasisUnavailable | SemanticMismatch(key: string)

  datatype Outcome = Constructed | Unavailable | Rejected

  datatype Normalized = NoModel | MismatchModel | Model(keys: seq<string>)

  datatype Report = Report(
    outcome: Outcome, troubles: seq<Trouble>, entries: seq<MapEntry>, fragments: seq<CandidateFragment>,
    artifacts: seq<Json>, basis: Option<Basis>, normalized: Normalized)

  /* ---------- identities ---------- */

  datatype Stage = Stage(table: Table, calls: nat, troubles: seq<Trouble>)

  function EstablishItem(stage: Stage, item: Item, mint: nat -> Option<string>): Stage {
    var asks := AsksMinter(item);
    var calls := if asks then stage.calls + 1 else stage.calls;
    match Establish(item.Operation(), item.Supplied(), if asks then mint(stage.calls) else None)
    case None => Stage(stage.table, calls, stage.troubles + [IdentityUnavailable(item.Key())])
    case Some(identity) => Stage(stage.table[item.Key() := identity], calls, stage.troubles)
  }

  /** The identity table: one for all keys, in which a later part of the request replaces an earlier one. */
  function EstablishAll(items: seq<Item>, mint: nat -> Option<string>): Stage {
    if items == [] then Stage(map[], 0, [])
    else EstablishItem(EstablishAll(items[..|items| - 1], mint), items[|items| - 1], mint)
  }

  lemma EstablishStep(items: seq<Item>, i: nat, mint: nat -> Option<string>)
    requires i < |items|
    ensures EstablishAll(items[..i + 1], mint) == EstablishItem(EstablishAll(items[..i], mint), items[i], mint)
  {
    assert items[..i + 1][..i] == items[..i];
  }

  lemma {:induction false} WithoutTroubleAllHaveIdentity(items: seq<Item>, mint: nat -> Option<string>)
    requires EstablishAll(items, mint).troubles == []
    ensures forall item :: item in items ==> item.Key() in EstablishAll(items, mint).table
  {
    if items != [] {
      var init, last := items[..|items| - 1], items[|items| - 1];
      WithoutTroubleAllHaveIdentity(init, mint);
      assert items == init + [last];
    }
  }

  /* ---------- candidates ---------- */

  datatype Made = Made(artifact: Artifact, source: Json, fields: Fields)

  /** The candidate made for one item: rendered, sealed, accepted again and interpreted. */
  ghost function Make(w: World, item: Item, table: Table, request: Request): Result<Made, Trouble>
    requires item.Key() in table
  {
    var key := item.Key();
    var source := SourceOf(item, table[key], table, request);
    var selector := SelectorFor(item, source);
    if key == "" || Render(w.authority.catalog, selector, source, w.authority.fuel).Err? then Err(SourceUnavailable(key))
    else
      var artifact := Sealed(w.authority, key, RefFor(request, key), item.Kind(), selector, request.contract, source);
      if !ValidUnder(w.authority, selector, source) then Err(InterpretationUnavailable(key))
      else
        match w.interpret(artifact, source)
        case None => Err(InterpretationUnavailable(key))
        case Some(fields) => Ok(Made(artifact, source, fields))
  }

  method MakeCandidate(w: World, item: Item, table: Table, request: Request) returns (r: Result<Made, Trouble>)
    requires item.Key() in table
    ensures r == Make(w, item, table, request)
  {
    hide Render, SourceOf, SelectorFor, ValidUnder;
    var key := item.Key();
    var source := SourceOf(item, table[key], table, request);
    var selector := SelectorFor(item, source);
    assert RefFor(request, key) != "" && SupportedKind(item.Kind());
    var artifact := SealArtifact(w.authority, key, RefFor(request, key), item.Kind(), selector, request.contract, source);
    if artifact.Err? {
      return Err(SourceUnavailable(key));
    }
    assert artifact.value == Sealed(w.authority, key, RefFor(request, key), item.Kind(), selector, request.contract, source);
    var accepted := DecodeAndValidate(w.authority, artifact.value);
    forall value
      ensures Stands(w.authority, artifact.value, value) <==> value == source && ValidUnder(w.authority, selector, source)
    {
      SealedStandsForItsSource(w.authority, key, RefFor(request, key), item.Kind(), selector, request.contract, source, value);
    }
    if accepted.Err? {
      assert accepted != Ok(source);
      return Err(InterpretationUnavailable(key));
    }
    match w.interpret(artifact.value, accepted.value)
    case None => return Err(InterpretationUnavailable(key));
    case Some(fields) => return Ok(Made(artifact.value, source, fields));
  }

  /** Everything gathered from the candidates, in order. */
  datatype Gathered = Gathered(
    entries: seq<MapEntry>, fragments: seq<CandidateFragment>, artifacts: seq<Json>, made: seq<(Item, Made)>,
    troubles: seq<Trouble>)

  ghost predicate AllKnown(items: seq<Item>, table: Table) {
    forall item :: item in items ==> item.Key() in table
  }

  ghost function GatherItem(w: World, g: Gathered, item: Item, table: Table, request: Request): Gathered
    requires item.Key() in table
  {
    match Make(w, item, table, request)
    case Err(trouble) => g.(troubles := g.troubles + [trouble])
    case Ok(made) =>
      Gathered(
        g.entries + [EntryOf(item, table[item.Key()], request)],
        g.fragments + [CandidateOf(item, table[item.Key()], table, request)],
        g.artifacts + [ArtifactToJson(w.encoding, made.artifact)],
        g.made + [(item, made)],
        g.troubles)
  }

  ghost function GatherAll(w: World, items: seq<Item>, table: Table, request: Request): Gathered
    requires AllKnown(items, table)
  {
    if items == [] then Gathered([], [], [], [], []) else
    var init, last := items[..|items| - 1], items[|items| - 1];
    assert items == init + [last];
    GatherItem(w, GatherAll(w, init, table, request), last, table, request)
  }

  lemma GatherStep(w: World, items: seq<Item>, i: nat, table: Table, request: Request)
    requires AllKnown(items, table) && i < |items|
    ensures AllKnown(items[..i], table) && AllKnown(items[..i + 1], table)
    ensures GatherAll(w, items[..i + 1], table, request)
         == GatherItem(w, GatherAll(w, items[..i], table, request), items[i], table, request)
  {
    assert items[..i + 1][..i] == items[..i];
  }

  /** The outcome of interpretation lost a field that its source has. */
  predicate Loses(pair: (Item, Made)) {
    pair.0.SemanticType() == "entity/gap" && pair.1.source.Get("context").Some? && "context" !in pair.1.fields
  }

  function FirstLoss(made: seq<(Item, Made)>): Option<string> {
    if made == [] then None else if Loses(made[0]) then Some(made[0].0.Key()) else FirstLoss(made[1..])
  }

  function ArtifactOf(pair: (Item, Made)): Artifact {
    pair.1.artifact
  }

  function KeyOf(item: Item): string {
    item.Key()
  }

  function FragmentKey(f: CandidateFragment): string {
    f.key
  }

  /** The report of a request, up to the basis, which is some basis of the artifacts made. */
  ghost predicate Reports(w: World, request: Request, r: Report) {
    var items := Items(request);
    var stage := EstablishAll(items, w.mint);
    if stage.troubles != [] then r == Report(Unavailable, stage.troubles, [], [], [], None, NoModel)
    else
      WithoutTroubleAllHaveIdentity(items, w.mint);
      ReportsGathered(w, GatherAll(w, items, stage.table, request), r)
  }

  ghost predicate ReportsGathered(w: World, g: Gathered, r: Report) {
    if g.troubles != [] then r == Report(Unavailable, g.troubles, g.entries, g.fragments, g.artifacts, None, NoModel)
    else if !CanBeSealed(w.authority, Map(ArtifactOf, g.made)) then
      r == Report(Unavailable, [BasisUnavailable], g.entries, g.fragments, g.artifacts, None, NoModel)
    else
      r.basis.Some? && IsBasis(w.authority, Map(ArtifactOf, g.made), r.basis.value)
      && match FirstLoss(g.made)
         case Some(key) => r == Report(Rejected, [SemanticMismatch(key)], [], [], g.artifacts, r.basis, MismatchModel)
         case None =>
           r == Report(Constructed, [], g.entries, g.fragments, g.artifacts, r.basis,
                       Model(Sort(StringLe, Map(FragmentKey, g.fragments))))
  }

  /** The artifacts can be sealed to a basis. */
  ghost predicate CanBeSealed(a: Authority, artifacts: seq<Artifact>) {
    Sealable(a, artifacts) && a.canonical(Descriptor(Sort(BeforeByRef, artifacts))).Some?
  }

  method EstablishIdentities(items: seq<Item>, mint: nat -> Option<string>) returns (stage: Stage)
    ensures stage == EstablishAll(items, mint)
  {
    var table: Table := map[];
    var calls := 0;
    var troubles: seq<Trouble> := [];
    for i := 0 to |items|
      invariant Stage(table, calls, troubles) == EstablishAll(items[..i], mint)
    {
      EstablishStep(items, i, mint);
      var item := items[i];
      var minted := None;
      if AsksMinter(item) {
        minted := mint(calls);
        calls := calls + 1;
      }
      match Establish(item.Operation(), item.Supplied(), minted) {
        case None => troubles := troubles + [IdentityUnavailable(item.Key())];
        case Some(identity) => table := table[item.Key() := identity];
      }
    }
    assert items[..|items|] == items;
    return Stage(table, calls, troubles);
  }

  method MakeCandidates(w: World, items: seq<Item>, table: Table, request: Request) returns (g: Gathered)
    requires AllKnown(items, table)
    ensures g == GatherAll(w, items, table, request)
  {
    hide Make, GatherAll;
    g := Gathered([], [], [], [], []);
    NothingGathered(w, table, request);
    assert items[..0] == [];
    for i := 0 to |items|
      invariant AllKnown(items[..i], table) && g == GatherAll(w, items[..i], table, request)
    {
      GatherStep(w, items, i, table, request);
      var item := items[i];
      var made := MakeCandidate(w, item, table, request);
      if made.Err? {
        g := g.(troubles := g.troubles + [made.error]);
        continue;
      }
      var identity := table[item.Key()];
      g := Gathered(
        g.entries + [EntryOf(item, identity, request)], g.fragments + [CandidateOf(item, identity, table, request)],
        g.artifacts + [ArtifactToJson(w.encoding, made.value.artifact)], g.made + [(item, made.value)], g.troubles);
    }
    assert items[..|items|] == items;
  }

  lemma NothingGathered(w: World, table: Table, request: Request)
    ensures GatherAll(w, [], table, request) == Gathered([], [], [], [], [])
  {
  }

  /** The artifacts in JSON form are those of the candidates. */
  ghost predicate InJson(encoding: Encoding, g: Gathered) {
    |g.artifacts| == |g.made| && forall i :: 0 <= i < |g.made| ==> g.artifacts[i] == ArtifactToJson(encoding, g.made[i].1.artifact)
  }

  lemma {:induction false} GatheredInJson(w: World, items: seq<Item>, table: Table, request: Request)
    requires AllKnown(items, table)
    ensures InJson(w.encoding, GatherAll(w, items, table, request))
  {
    hide Make, ArtifactToJson;
    if items != [] {
      var init := items[..|items| - 1];
      assert items == init + [items[|items| - 1]];
      GatheredInJson(w, init, table, request);
    }
  }

  method ReadArtifacts(encoding: Encoding, values: seq<Json>, ghost g: Gathered) returns (artifacts: seq<Artifact>)
    requires Faithful(encoding) && InJson(encoding, g) && g.artifacts == values
    ensures artifacts == Map(ArtifactOf, g.made)
  {
    hide ArtifactToJson, Faithful, ParsedArtifact;
    artifacts := [];
    for i := 0 to |values|
      invariant artifacts == Map(ArtifactOf, g.made)[..i]
    {
      ArtifactJsonRoundTrip(encoding, g.made[i].1.artifact);
      var artifact := JsonToArtifact(encoding, values[i]);
      artifacts := artifacts + [artifact.value];
    }
  }

  method FindLoss(made: seq<(Item, Made)>) returns (key: Option<string>)
    ensures key == FirstLoss(made)
  {
    assert made[0..] == made;
    for i := 0 to |made|
      invariant FirstLoss(made) == FirstLoss(made[i..])
    {
      assert made[i..][1..] == made[i + 1..];
      if Loses(made[i]) {
        return Some(made[i].0.Key());
      }
    }
    return None;
  }

  method Construct(w: World, request: Request) returns (r: Report)
    requires Faithful(w.encoding)
    ensures Reports(w, request, r)
  {
    hide GatherAll, EstablishAll, FirstLoss, IsBasis, Sealable, Faithful;
    var items := Items(request);
    var stage := EstablishIdentities(items, w.mint);
    if stage.troubles != [] {
      return Report(Unavailable, stage.troubles, [], [], [], None, NoModel);
    }
    WithoutTroubleAllHaveIdentity(items, w.mint);
    var g := MakeCandidates(w, items, stage.table, request);
    if g.troubles != [] {
      return Report(Unavailable, g.troubles, g.entries, g.fragments, g.artifacts, None, NoModel);
    }
    GatheredInJson(w, items, stage.table, request);
    var artifacts := ReadArtifacts(w.encoding, g.artifacts, g);
    var basis := SealBasis(w.authority, artifacts);
    if basis.Err? {
      return Report(Unavailable, [BasisUnavailable], g.entries, g.fragments, g.artifacts, None, NoModel);
    }
    var loss := FindLoss(g.made);
    match loss
    case Some(key) => return Report(Rejected, [SemanticMismatch(key)], [], [], g.artifacts, Some(basis.value), MismatchModel);
    case None =>
      return Report(Constructed, [], g.entries, g.fragments, g.artifacts, Some(basis.value),
                    Model(Sort(StringLe, Map(FragmentKey, g.fragments))));
  }
}
