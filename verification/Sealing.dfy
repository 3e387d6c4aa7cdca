/**
 * Sealing of candidate sources: the artifact made from a rendered source, the check of an artifact that
 * comes back, and the basis that binds a set of artifacts to one digest.
 */
module Sealing {
  import opened Prelude
  import opened SchemaCatalog
  import opened SchemaEvaluator
  import opened SchemaFragments
  import opened Renderer
  import opened CandidateSource
  import opened CanonicalText
  import opened Layout
  import opened CodecRoundTrip
  import CanonicalYaml

  const PROFILE := "adr-kit.authoring-yaml/v1"
  const BASIS_DOMAIN := "adr-kit.candidate-source-basis/v1"

  datatype Artifact = Artifact(
    requestKey: string, sourceRef: string, kind: string, selector: Selector, profile: string, digest: string, text: string,
    contract: Json)

  datatype Basis = Basis(artifacts: seq<Artifact>, digest: string)

  /**
   * The sealed schemas, in the order they are written for printing and as values for validation, and two
   * functions that are left open: the digest of a text, and the canonical text of a value, which some
   * values do not have.
   */
  datatype Authority = Authority(
    catalog: Catalog, env: Env, fuel: nat, digest: string -> string, canonical: Json -> Option<string>)

  datatype Refusal =
    | EmptyName | UnsupportedKind | NotRendered(error: RenderError)
    | WrongProfile | WrongDigest | NotDecoded | NotCanonical | NotValid(verdict: Verdict)
    | EmptyBasis | DuplicateRef(ref: string) | NotDescribable

  predicate SupportedKind(kind: string) {
    kind == "authoring_fragment" || kind == "authoring_document"
  }

  method SealArtifact(
      a: Authority, requestKey: string, sourceRef: string, kind: string, selector: Selector, contract: Json, source: Json)
    returns (r: Result<Artifact, Refusal>)
    ensures r.Ok? <==> requestKey != "" && sourceRef != "" && SupportedKind(kind) && Render(a.catalog, selector, source, a.fuel).Ok?
    ensures r.Ok? ==>
              var text := Render(a.catalog, selector, source, a.fuel).value;
              r.value == Artifact(requestKey, sourceRef, kind, selector, PROFILE, a.digest(text), text, contract)
    ensures r == Err(EmptyName) <==> requestKey == "" || sourceRef == ""
    ensures r == Err(UnsupportedKind) <==> requestKey != "" && sourceRef != "" && !SupportedKind(kind)
  {
    if requestKey == "" || sourceRef == "" {
      return Err(EmptyName);
    }
    if !SupportedKind(kind) {
      return Err(UnsupportedKind);
    }
    hide Render;
    var text := RenderSource(a.catalog, selector, source, a.fuel);
    if text.Err? {
      return Err(NotRendered(text.error));
    }
    return Ok(Artifact(requestKey, sourceRef, kind, selector, PROFILE, a.digest(text.value), text.value, contract));
  }

  /* ---------- acceptance ---------- */

  ghost predicate Renders(a: Authority, artifact: Artifact, value: Json) {
    Render(a.catalog, artifact.selector, value, a.fuel) == Ok(artifact.text)
  }

  ghost predicate ValidUnder(a: Authority, selector: Selector, value: Json) {
    FragmentVerdict(a.env, selector.resource, selector.pointer, value).Valid?
  }

  /** The artifact is intact, its text is the rendering of the value, and the value passes its schema. */
  ghost predicate Stands(a: Authority, artifact: Artifact, value: Json) {
    artifact.profile == PROFILE && a.digest(artifact.text) == artifact.digest
    && Renders(a, artifact, value) && ValidUnder(a, artifact.selector, value)
  }

  /** Rendering and decoding agree on what an artifact says, so that only one value can stand. */
  lemma OnlyDecodedRenders(a: Authority, artifact: Artifact, value: Json)
    requires Renders(a, artifact, value)
    ensures CanonicalYaml.Decode(artifact.text) == Ok(value)
  {
    RenderThenDecode(a.catalog, artifact.selector, value, a.fuel);
  }

  /**
   * Acceptance, exactly.  The looseness of the decoder is gone: an accepted text is the rendering of the
   * value returned, and a text that is the rendering of a valid value is accepted.
   */
  method DecodeAndValidate(a: Authority, artifact: Artifact) returns (r: Result<Json, Refusal>)
    ensures forall value :: r == Ok(value) <==> Stands(a, artifact, value)
    ensures r == Err(NotCanonical) ==> CanonicalYaml.Decode(artifact.text).Ok? && forall value :: !Renders(a, artifact, value)
    ensures r == Err(WrongProfile) <==> artifact.profile != PROFILE
    ensures r == Err(WrongDigest) <==> artifact.profile == PROFILE && a.digest(artifact.text) != artifact.digest
    ensures r.Err? && r.error.NotValid? ==> exists value :: Renders(a, artifact, value) && !ValidUnder(a, artifact.selector, value)
  {
    if artifact.profile != PROFILE {
      return Err(WrongProfile);
    }
    if a.digest(artifact.text) != artifact.digest {
      return Err(WrongDigest);
    }
    hide Render, FragmentVerdict, CanonicalYaml.Decode;
    forall value | Renders(a, artifact, value) ensures CanonicalYaml.Decode(artifact.text) == Ok(value) {
      OnlyDecodedRenders(a, artifact, value);
    }
    var source := CanonicalYaml.DecodeCanonicalCandidate(artifact.text);
    if source.Err? {
      return Err(NotDecoded);
    }
    var rendered := RenderSource(a.catalog, artifact.selector, source.value, a.fuel);
    if rendered.Err? {
      return Err(NotRendered(rendered.error));
    }
    if rendered.value != artifact.text {
      return Err(NotCanonical);
    }
    var verdict := ValidateFragment(a.env, artifact.selector.resource, artifact.selector.pointer, source.value);
    if verdict.Invalid? {
      assert Renders(a, artifact, source.value) && !ValidUnder(a, artifact.selector, source.value);
      return Err(NotValid(verdict));
    }
    return Ok(source.value);
  }

  /** The artifact that sealing makes of a rendered source. */
  ghost function Sealed(
      a: Authority, requestKey: string, sourceRef: string, kind: string, selector: Selector, contract: Json, source: Json)
    : Artifact
    requires Render(a.catalog, selector, source, a.fuel).Ok?
  {
    var text := Render(a.catalog, selector, source, a.fuel).value;
    Artifact(requestKey, sourceRef, kind, selector, PROFILE, a.digest(text), text, contract)
  }

  /**
   * A sealed artifact passes the digest, decoding and rendering checks: it stands for its own source and
   * for nothing else, and it does so exactly when that source passes the schema.
   */
  lemma SealedStandsForItsSource(
      a: Authority, requestKey: string, sourceRef: string, kind: string, selector: Selector, contract: Json, source: Json,
      value: Json)
    requires Render(a.catalog, selector, source, a.fuel).Ok?
    ensures Stands(a, Sealed(a, requestKey, sourceRef, kind, selector, contract, source), value)
       <==> value == source && ValidUnder(a, selector, source)
  {
    hide Render, FragmentVerdict, CanonicalYaml.Decode;
    var artifact := Sealed(a, requestKey, sourceRef, kind, selector, contract, source);
    OnlyDecodedRenders(a, artifact, source);
    if Renders(a, artifact, value) {
      OnlyDecodedRenders(a, artifact, value);
    }
  }

  /* ---------- the decoder alone is looser ---------- */

  const LOOSE := Mapping([Entry("a", OwnLine(Number(1)))])

  lemma InlineOne()
    ensures InlineText(Number(1)) == Some("1") && CanonicalString("a") == "\"a\""
  {
    assert "a"[1..] == "";
  }

  lemma LooseText()
    ensures Printable(LOOSE) && Lines(LOOSE, 0) == ["\"a\":", "  1"] && SourceText(LOOSE) == "\"a\":\n  1\n"
  {
    InlineOne();
    var child := OwnLine(Number(1));
    assert LOOSE.entries[1..] == [];
    assert EntryLines(LOOSE.entries, 0) == Member("a", child, 0) + EntryLines([], 0);
    assert Spaces(0) + "\"a\"" + ":" == "\"a\":" && Spaces(2) + "1" == "  1";
    assert Member("a", child, 0) == ["\"a\":"] + ["  1"];
    assert ["\"a\":"] + ["  1"] == ["\"a\":", "  1"];
    assert Lines(LOOSE, 0) == ["\"a\":", "  1"];
  }

  /** The first line of a tight block: a quote or a dash stands at its column. */
  lemma TightBlockStart(t: Tree, indent: nat)
    requires Printable(t) && Tight(t) && !t.Leaf? && indent % 2 == 0
    ensures var lines := Lines(t, indent);
            && lines != [] && |lines[0]| > indent
            && lines[0][indent] == if t.Mapping? then '"' else '-'
  {
    hide CanonicalString;
    match t
    case Mapping(entries) =>
      MemberReads(entries[0].key, entries[0].child, indent);
      var head := Spaces(indent) + CanonicalString(entries[0].key);
      QuotedKey(entries[0].key);
      assert Lines(t, indent)[0] == Member(entries[0].key, entries[0].child, indent)[0];
      assert head[indent] == '"' && |head| > indent;
    case Sequence(items) =>
      assert Item(items[0], indent)[0][indent] == '-';
      assert Lines(t, indent) == Item(items[0], indent) + ItemLines(items[1..], indent);
  }

  lemma QuotedKey(key: string)
    ensures |CanonicalString(key)| >= 2 && CanonicalString(key)[0] == '"'
  {
  }

  lemma NoTightTreeLooksLoose(t: Tree)
    requires Printable(t) && Tight(t)
    ensures Lines(t, 0) != ["\"a\":", "  1"]
  {
    hide CanonicalString;
    if !t.Leaf? {
      TightBlockStart(t, 0);
      if t.Mapping? {
        var key, child := t.entries[0].key, t.entries[0].child;
        assert Printable(child) && Tight(child);
        QuotedKey(key);
        var member := Member(key, child, 0);
        assert Lines(t, 0) == member + EntryLines(t.entries[1..], 0);
        if child.Leaf? {
          InlineTextShape(child.value);
          assert |member[0]| >= 5;
        } else {
          TightBlockStart(child, 2);
          assert Lines(t, 0)[1] == member[1] == Lines(child, 2)[0];
          assert "  1"[2] == '1';
        }
      }
    }
  }

  /**
   * Why acceptance renders again: the decoder reads a scalar on a line of its own, and no value, schema or
   * selector renders to such a text.
   */
  lemma DecoderAloneIsLooser(catalog: Catalog, selector: Selector, value: Json, fuel: nat)
    ensures CanonicalYaml.Decode("\"a\":\n  1\n") == Ok(Obj(map["a" := Number(1)]))
    ensures Render(catalog, selector, value, fuel) != Ok("\"a\":\n  1\n")
  {
    hide CanonicalYaml.Decode, Lines, SourceText, Arrange, Tight, CanonicalYaml.SourceLines;
    LooseText();
    DecodeUndoesLayout(LOOSE);
    assert Erase(LOOSE) == Obj(map["a" := Number(1)]) by {
      assert LOOSE.entries[1..] == [];
      assert EraseEntries(map["a" := Number(1)], []) == map["a" := Number(1)];
    }
    if Render(catalog, selector, value, fuel) == Ok("\"a\":\n  1\n") {
      var schema := Some(Select(catalog, selector).value);
      ArrangeErases(catalog, value, schema, fuel);
      var t := Arrange(catalog, value, schema, fuel).value;
      NoTightTreeLooksLoose(t);
      SourceReadsAsLines(t);
      SourceReadsAsLines(LOOSE);
    }
  }
}
