/** The basis of a candidate: its sealed artifacts in the order of their references, bound to one digest. */
module SourceBasis {
  import opened Prelude
  import opened Ordering
  import opened Grouping
  import opened Sealing

  /** What is wrong with artifact `i`, given the ones before it; in the order the program looks. */
  function Fault(a: Authority, artifacts: seq<Artifact>, i: nat): Option<Refusal>
    requires i < |artifacts|
  {
    var artifact := artifacts[i];
    if exists j :: 0 <= j < i && artifacts[j].sourceRef == artifact.sourceRef then Some(DuplicateRef(artifact.sourceRef))
    else if artifact.profile != PROFILE then Some(WrongProfile)
    else if artifact.digest != a.digest(artifact.text) then Some(WrongDigest)
    else None
  }

  function RefOf(artifact: Artifact): string {
    artifact.sourceRef
  }

  ghost predicate Intact(a: Authority, artifact: Artifact) {
    artifact.profile == PROFILE && artifact.digest == a.digest(artifact.text)
  }

  /** What the basis is made for: some artifacts, none twice, none altered. */
  ghost predicate Sealable(a: Authority, artifacts: seq<Artifact>) {
    artifacts != [] && DistinctBy(RefOf, artifacts) && forall x :: x in artifacts ==> Intact(a, x)
  }

  function Describe(artifact: Artifact): Json {
    Obj(map[
      "request_key" := Str(artifact.requestKey),
      "source_ref" := Str(artifact.sourceRef),
      "artifact_kind" := Str(artifact.kind),
      "source_schema" := Obj(map[
        "canonical_resource_key" := Str(artifact.selector.resource), "json_pointer" := Str(artifact.selector.pointer)]),
      "serialization_profile" := Str(artifact.profile),
      "content_digest" := Str(artifact.digest),
      "source_contract" := artifact.contract])
  }

  function Descriptor(artifacts: seq<Artifact>): Json {
    Obj(map["domain" := Str(BASIS_DOMAIN), "artifacts" := Arr(seq(|artifacts|, i requires 0 <= i < |artifacts| => Describe(artifacts[i])))])
  }

  lemma FaultsBarSealing(a: Authority, artifacts: seq<Artifact>, i: nat)
    requires i < |artifacts| && Fault(a, artifacts, i).Some?
    ensures !Sealable(a, artifacts)
  {
    assert artifacts[i] in artifacts;
  }

  predicate BeforeByRef(x: Artifact, y: Artifact) {
    StringLe(x.sourceRef, y.sourceRef)
  }

  ghost predicate StrictlySorted(artifacts: seq<Artifact>) {
    forall i, j :: 0 <= i < j < |artifacts| ==>
      StringLe(artifacts[i].sourceRef, artifacts[j].sourceRef) && artifacts[i].sourceRef != artifacts[j].sourceRef
  }

  /** A basis of the given artifacts: the same artifacts, strictly sorted, and the digest of their descriptor. */
  ghost predicate IsBasis(a: Authority, artifacts: seq<Artifact>, basis: Basis) {
    multiset(basis.artifacts) == multiset(artifacts) && StrictlySorted(basis.artifacts)
    && a.canonical(Descriptor(basis.artifacts)).Some?
    && basis.digest == a.digest(a.canonical(Descriptor(basis.artifacts)).value)
  }

  lemma RefOrder()
    ensures Preorder(BeforeByRef)
  {
    forall x: Artifact, y: Artifact ensures BeforeByRef(x, y) || BeforeByRef(y, x) {
      StringLeTotal(x.sourceRef, y.sourceRef);
    }
    forall x: Artifact, y: Artifact, z: Artifact | BeforeByRef(x, y) && BeforeByRef(y, z) ensures BeforeByRef(x, z) {
      StringLeTransitive(x.sourceRef, y.sourceRef, z.sourceRef);
    }
  }

  lemma SortIsStrict(artifacts: seq<Artifact>)
    requires DistinctBy(RefOf, artifacts)
    ensures StrictlySorted(Sort(BeforeByRef, artifacts))
  {
    RefOrder();
    SortSorted(BeforeByRef, artifacts);
    DistinctByPermuted(RefOf, artifacts, Sort(BeforeByRef, artifacts));
  }

  /** The first artifact at fault, in input order, has this fault. */
  ghost predicate FirstFault(a: Authority, artifacts: seq<Artifact>, refusal: Refusal) {
    exists i: nat :: i < |artifacts| && Fault(a, artifacts, i) == Some(refusal)
                     && forall j: nat :: j < i ==> Fault(a, artifacts, j).None?
  }

  /** The outcome of sealing. */
  ghost predicate SealsTo(a: Authority, artifacts: seq<Artifact>, r: Result<Basis, Refusal>) {
    (r.Ok? <==> Sealable(a, artifacts) && a.canonical(Descriptor(Sort(BeforeByRef, artifacts))).Some?)
    && (r.Ok? ==> IsBasis(a, artifacts, r.value))
    && (r == Err(EmptyBasis) <==> artifacts == [])
    && (r.Err? && artifacts != [] ==>
          (r.error == NotDescribable && Sealable(a, artifacts)) || FirstFault(a, artifacts, r.error))
  }

  /** Seals a basis; the first fault in input order is the one reported. */
  method SealBasis(a: Authority, artifacts: seq<Artifact>) returns (r: Result<Basis, Refusal>)
    ensures SealsTo(a, artifacts, r)
  {
    if artifacts == [] {
      return Err(EmptyBasis);
    }
    var refs: set<string> := {};
    for i := 0 to |artifacts|
      invariant forall ref :: ref in refs <==> exists j :: 0 <= j < i && artifacts[j].sourceRef == ref
      invariant DistinctBy(RefOf, artifacts[..i]) && forall j :: 0 <= j < i ==> Intact(a, artifacts[j])
      invariant forall j: nat :: j < i ==> Fault(a, artifacts, j).None?
    {
      var artifact := artifacts[i];
      if artifact.sourceRef in refs {
        assert Fault(a, artifacts, i) == Some(DuplicateRef(artifact.sourceRef));
        FaultsBarSealing(a, artifacts, i);
        return Err(DuplicateRef(artifact.sourceRef));
      }
      refs := refs + {artifact.sourceRef};
      if artifact.profile != PROFILE {
        assert Fault(a, artifacts, i) == Some(WrongProfile);
        FaultsBarSealing(a, artifacts, i);
        return Err(WrongProfile);
      }
      if artifact.digest != a.digest(artifact.text) {
        assert Fault(a, artifacts, i) == Some(WrongDigest);
        FaultsBarSealing(a, artifacts, i);
        return Err(WrongDigest);
      }
    }
    assert artifacts[..|artifacts|] == artifacts;
    SortIsStrict(artifacts);
    var sorted := Sort(BeforeByRef, artifacts);
    var canonical := a.canonical(Descriptor(sorted));
    if canonical.None? {
      return Err(NotDescribable);
    }
    return Ok(Basis(sorted, a.digest(canonical.value)));
  }

  lemma StrictlySortedSeparates(s: seq<Artifact>)
    requires StrictlySorted(s)
    ensures Sorted(BeforeByRef, s) && Separates(BeforeByRef, multiset(s))
  {
    forall x, y | x in multiset(s) && y in multiset(s) && BeforeByRef(x, y) && BeforeByRef(y, x) ensures x == y {
      StringLeAntisymmetric(x.sourceRef, y.sourceRef);
      assert x in s && y in s;
    }
  }

  /**
   * The basis forgets the order in which artifacts arrive: whatever the permutation, either none or both
   * inputs can be sealed, and there is one list of artifacts and one digest that they can be sealed to.
   */
  lemma BasisForgetsOrder(a: Authority, s: seq<Artifact>, t: seq<Artifact>, x: Basis, y: Basis)
    requires multiset(s) == multiset(t)
    ensures Sealable(a, s) <==> Sealable(a, t)
    ensures IsBasis(a, s, x) && IsBasis(a, t, y) ==> x == y
  {
    SealablePermuted(a, s, t);
    SealablePermuted(a, t, s);
    if IsBasis(a, s, x) && IsBasis(a, t, y) {
      RefOrder();
      StrictlySortedSeparates(x.artifacts);
      StrictlySortedSeparates(y.artifacts);
      SortedUnique(BeforeByRef, x.artifacts, y.artifacts);
    }
  }

  lemma SealablePermuted(a: Authority, s: seq<Artifact>, t: seq<Artifact>)
    requires multiset(s) == multiset(t)
    ensures Sealable(a, s) ==> Sealable(a, t)
  {
    if Sealable(a, s) {
      DistinctByPermuted(RefOf, s, t);
      assert |multiset(s)| == |multiset(t)|;
      forall x | x in t ensures Intact(a, x) {
        assert x in multiset(t);
        assert x in s;
      }
    }
  }

  lemma SortForgetsOrder(a: Authority, s: seq<Artifact>, t: seq<Artifact>)
    requires multiset(s) == multiset(t) && Sealable(a, s)
    ensures Sort(BeforeByRef, s) == Sort(BeforeByRef, t)
  {
    RefOrder();
    SortIsStrict(s);
    StrictlySortedSeparates(Sort(BeforeByRef, s));
    SortPermutation(BeforeByRef, s, t);
  }

  /**
   * Whatever the order in which artifacts arrive, sealing gives the same basis, or finds nothing to seal,
   * or finds the descriptor without a canonical text, or refuses an artifact.  Only which faulty artifact
   * is named depends on the order.
   */
  lemma OutcomeForgetsOrder(a: Authority, s: seq<Artifact>, t: seq<Artifact>, x: Result<Basis, Refusal>, y: Result<Basis, Refusal>)
    requires multiset(s) == multiset(t) && SealsTo(a, s, x) && SealsTo(a, t, y)
    ensures x.Ok? || y.Ok? || Sealable(a, s) || s == [] ==> x == y
    ensures x.Err? && !Sealable(a, s) && s != [] ==> FirstFault(a, s, x.error) && FirstFault(a, t, y.error)
  {
    hide Sealable, IsBasis, FirstFault, Sort, Descriptor;
    assert |multiset(s)| == |multiset(t)|;
    SealablePermuted(a, s, t);
    SealablePermuted(a, t, s);
    if Sealable(a, s) {
      SortForgetsOrder(a, s, t);
      NoFirstFault(a, s);
      NoFirstFault(a, t);
      if x.Ok? && y.Ok? {
        BasisForgetsOrder(a, s, t, x.value, y.value);
      }
    }
    if s == [] {
      assert t == [];
    }
  }

  lemma NoFirstFault(a: Authority, artifacts: seq<Artifact>)
    requires Sealable(a, artifacts)
    ensures forall refusal :: !FirstFault(a, artifacts, refusal)
  {
    hide Sealable, Fault;
    forall i: nat | i < |artifacts| && Fault(a, artifacts, i).Some? ensures false {
      FaultsBarSealing(a, artifacts, i);
    }
  }

  /* ---------- what the digest binds ---------- */

  /** A line of the descriptor: everything about an artifact but its text, which its digest stands for. */
  ghost predicate LineOf(artifact: Artifact, line: Json) {
    line.Obj?
    && line.fields.Keys
       == {"request_key", "source_ref", "artifact_kind", "source_schema", "serialization_profile", "content_digest", "source_contract"}
    && line.Get("request_key") == Some(Str(artifact.requestKey)) && line.Get("source_ref") == Some(Str(artifact.sourceRef))
    && line.Get("artifact_kind") == Some(Str(artifact.kind)) && line.Get("serialization_profile") == Some(Str(artifact.profile))
    && line.Get("content_digest") == Some(Str(artifact.digest)) && line.Get("source_contract") == Some(artifact.contract)
    && exists schema :: line.Get("source_schema") == Some(Obj(schema)) && schema.Keys == {"canonical_resource_key", "json_pointer"}
                        && schema["canonical_resource_key"] == Str(artifact.selector.resource)
                        && schema["json_pointer"] == Str(artifact.selector.pointer)
  }

  /** The descriptor names its domain and has one line for every artifact, in order. */
  ghost predicate DescriptorOf(artifacts: seq<Artifact>, descriptor: Json) {
    descriptor.Obj? && descriptor.fields.Keys == {"domain", "artifacts"}
    && descriptor.Get("domain") == Some(Str("adr-kit.candidate-source-basis/v1"))
    && exists lines :: descriptor.Get("artifacts") == Some(Arr(lines)) && |lines| == |artifacts|
                       && forall i :: 0 <= i < |lines| ==> LineOf(artifacts[i], lines[i])
  }

  lemma LineMeans(artifact: Artifact)
    ensures LineOf(artifact, Describe(artifact))
  {
    var schema := map["canonical_resource_key" := Str(artifact.selector.resource), "json_pointer" := Str(artifact.selector.pointer)];
    assert Describe(artifact).Get("source_schema") == Some(Obj(schema));
  }

  lemma OneLine(x: Artifact, y: Artifact, line: Json)
    requires LineOf(x, line) && LineOf(y, line)
    ensures x.(text := "") == y.(text := "")
  {
  }

  lemma DescriptorMeans(artifacts: seq<Artifact>)
    ensures DescriptorOf(artifacts, Descriptor(artifacts))
  {
    hide Describe, LineOf;
    var lines := Descriptor(artifacts).fields["artifacts"].items;
    assert Descriptor(artifacts).Get("artifacts") == Some(Arr(lines));
    forall i | 0 <= i < |artifacts| ensures LineOf(artifacts[i], lines[i]) {
      LineMeans(artifacts[i]);
    }
  }

  ghost predicate SameButText(s: seq<Artifact>, t: seq<Artifact>) {
    |s| == |t| && forall i :: 0 <= i < |s| ==> s[i].(text := "") == t[i].(text := "")
  }

  lemma LinesShow(s: seq<Artifact>, t: seq<Artifact>, descriptor: Json)
    requires DescriptorOf(s, descriptor) && DescriptorOf(t, descriptor)
    ensures SameButText(s, t)
  {
    hide LineOf;
    var lines := descriptor.fields["artifacts"].items;
    forall i | 0 <= i < |lines| ensures s[i].(text := "") == t[i].(text := "") {
      OneLine(s[i], t[i], lines[i]);
    }
  }

  lemma SameLines(s: seq<Artifact>, t: seq<Artifact>)
    requires SameButText(s, t)
    ensures Descriptor(s) == Descriptor(t)
  {
    forall i | 0 <= i < |s| ensures Describe(s[i]) == Describe(t[i]) {
      TextIsNotDescribed(s[i]);
      TextIsNotDescribed(t[i]);
    }
    hide Describe;
    assert Descriptor(s).fields["artifacts"].items == Descriptor(t).fields["artifacts"].items;
  }

  /** The digest of a basis binds its artifacts: the descriptor is theirs, and no other artifacts have it. */
  lemma DescriptorBinds(s: seq<Artifact>, t: seq<Artifact>)
    ensures DescriptorOf(s, Descriptor(s))
    ensures Descriptor(s) == Descriptor(t) <==> SameButText(s, t)
  {
    hide Descriptor, DescriptorOf, SameButText;
    DescriptorMeans(s);
    DescriptorMeans(t);
    if Descriptor(s) == Descriptor(t) {
      LinesShow(s, t, Descriptor(s));
    }
    if SameButText(s, t) {
      SameLines(s, t);
    }
  }

  lemma TextIsNotDescribed(artifact: Artifact)
    ensures Describe(artifact) == Describe(artifact.(text := ""))
  {
  }
}
