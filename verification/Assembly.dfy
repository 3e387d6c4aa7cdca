/**
 * Assembly of interpreted documents into one normalized model: entities must be unique, and all lists are
 * sorted.
 */
module Assembly {
  import opened Prelude
  import opened Ordering
  import opened Grouping
  import opened StableMerge

  datatype Error = NoDocuments | DuplicateEntity(id: string) | Undigestable

  function Text(value: Json, key: string): string {
    match value.Get(key)
    case Some(Str(s)) => s
    case _ => ""
  }

  /** A list of a document's model; anything else counts as empty. */
  function List(model: Json, name: string): seq<Json> {
    match model.Get(name)
    case Some(Arr(items)) => items
    case _ => []
  }

  function Entities(model: Json): seq<Json> { List(model, "entities") }
  function Relationships(model: Json): seq<Json> { List(model, "relationships") }
  function Unresolved(model: Json): seq<Json> { List(model, "unresolved") }

  function EntityKey(entity: Json): Key {
    (Text(entity, "id"), "")
  }

  /** The record kind, then the id or, where there is none, the assertion id. */
  function RelationshipKey(r: Json): Key {
    (Text(r, "record_kind"), if r.Get("id").Some? then Text(r, "id") else Text(r, "assertion_id"))
  }

  function UnresolvedKey(u: Json): Key {
    (Text(u, "code"), Text(u, "source_pointer"))
  }

  /** The first id that an earlier entity has as well. */
  function FirstRepeated(entities: seq<Json>): Option<string> {
    if entities == [] then None else
    var n := |entities| - 1;
    var earlier := FirstRepeated(entities[..n]);
    if earlier.Some? then earlier
    else if exists i :: 0 <= i < n && EntityKey(entities[i]) == EntityKey(entities[n]) then Some(Text(entities[n], "id"))
    else None
  }

  function Digests(coverage: seq<Json>, digest: Json -> Option<string>): Option<seq<(string, Json)>> {
    if coverage == [] then Some([]) else
    var n := |coverage| - 1;
    match (Digests(coverage[..n], digest), digest(coverage[n]))
    case (Some(pairs), Some(d)) => Some(pairs + [(d, coverage[n])])
    case _ => None
  }

  function DigestKey(pair: (string, Json)): Key { (pair.0, "") }

  function Covered(pair: (string, Json)): Json { pair.1 }

  /** The fixed facts of a whole basis. */
  datatype Scope = Scope(provider: string, namespace: string)

  function Model(scope: Scope, entities: seq<Json>, relationships: seq<Json>, unresolved: seq<Json>, coverage: seq<Json>): map<string, Json> {
    map[
      "schema_version" := Str("2.4"),
      "type" := Str("normalized_architecture_model"),
      "mode" := Str("normalized"),
      "scope_root" := Str(scope.provider),
      "architecture_namespace" := Str(scope.namespace),
      "entities" := Arr(entities),
      "relationships" := Arr(relationships),
      "unresolved" := Arr(unresolved),
      "validation_summary" := Obj(map["entity_count" := Number(|entities|), "source_artifact_count" := Number(|coverage|)]),
      "source_coverage" := Obj(map["source_artifacts" := Arr(coverage)])]
  }

  function Sealed(model: map<string, Json>, digest: Json -> Option<string>): Result<Json, Error> {
    match digest(Obj(model))
    case None => Err(Undigestable)
    case Some(fingerprint) => Ok(Obj(model["fingerprint" := Str(fingerprint)]))
  }

  /** The model of several documents. */
  function Assembled(models: seq<Json>, scope: Scope, coverage: seq<Json>, digest: Json -> Option<string>): Result<Json, Error> {
    if models == [] then Err(NoDocuments)
    else if |models| == 1 then Ok(models[0])
    else
      match FirstRepeated(Gather(Entities, models))
      case Some(id) => Err(DuplicateEntity(id))
      case None =>
        match Digests(coverage, digest)
        case None => Err(Undigestable)
        case Some(pairs) =>
          Sealed(
            Model(scope, Merged(Entities, EntityKey, models), Merged(Relationships, RelationshipKey, models),
                  Merged(Unresolved, UnresolvedKey, models), Map(Covered, Sort(Order(DigestKey), pairs))), digest)
  }

  /** The assembly as the program runs it: documents one after the other, entity ids collected in a set. */
  method Assemble(models: seq<Json>, scope: Scope, coverage: seq<Json>, digest: Json -> Option<string>)
    returns (r: Result<Json, Error>)
    ensures r == Assembled(models, scope, coverage, digest)
  {
    if models == [] {
      return Err(NoDocuments);
    }
    if |models| == 1 {
      return Ok(models[0]);
    }
    hide Sort, Model, Sealed, FirstRepeated, Digests, Known, Gather;
    var entities: seq<Json>, relationships: seq<Json>, unresolved: seq<Json> := [], [], [];
    var ids: set<string> := {};
    NothingRepeated();
    NothingGathered(models);
    for i := 0 to |models|
      invariant entities == Gather(Entities, models[..i]) && relationships == Gather(Relationships, models[..i])
      invariant unresolved == Gather(Unresolved, models[..i])
      invariant FirstRepeated(entities).None? && Known(ids, entities)
    {
      assert models[..i + 1] == models[..i] + [models[i]];
      GatherStep(Entities, models[..i], models[i]);
      GatherStep(Relationships, models[..i], models[i]);
      GatherStep(Unresolved, models[..i], models[i]);
      var repeated;
      entities, ids, repeated := AddEntities(entities, ids, Entities(models[i]));
      if repeated.Some? {
        AllGathered(models, i);
        RepeatedStays(Gather(Entities, models[..i]) + Entities(models[i]), Gather(Entities, models[i + 1..]));
        return Err(DuplicateEntity(repeated.value));
      }
      relationships := relationships + Relationships(models[i]);
      unresolved := unresolved + Unresolved(models[i]);
    }
    assert models[..|models|] == models;
    var pairs := CollectDigests(coverage, digest);
    if pairs.None? {
      return Err(Undigestable);
    }
    return Sealed(
      Model(scope, Sort(Order(EntityKey), entities), Sort(Order(RelationshipKey), relationships),
            Sort(Order(UnresolvedKey), unresolved), Map(Covered, Sort(Order(DigestKey), pairs.value))), digest);
  }

  /** Adds the entities of one document; stops at the first id that is known already. */
  method AddEntities(entities: seq<Json>, ids: set<string>, incoming: seq<Json>)
    returns (more: seq<Json>, known: set<string>, repeated: Option<string>)
    requires FirstRepeated(entities).None? && Known(ids, entities)
    ensures repeated.Some? ==> FirstRepeated(entities + incoming) == repeated
    ensures repeated.None? ==> more == entities + incoming && FirstRepeated(more).None? && Known(known, more)
  {
    hide FirstRepeated;
    more, known, repeated := entities, ids, None;
    for j := 0 to |incoming|
      invariant more == entities + incoming[..j] && FirstRepeated(more).None? && Known(known, more)
    {
      var id := Text(incoming[j], "id");
      RepeatedStep(more, incoming[j]);
      if id in known {
        assert entities + incoming == (more + [incoming[j]]) + incoming[j + 1..];
        RepeatedStays(more + [incoming[j]], incoming[j + 1..]);
        repeated := Some(id);
        return;
      }
      known := known + {id};
      more := more + [incoming[j]];
    }
  }

  lemma NothingGathered(models: seq<Json>)
    ensures Gather(Entities, models[..0]) == [] && Gather(Relationships, models[..0]) == [] && Gather(Unresolved, models[..0]) == []
  {
  }

  method CollectDigests(coverage: seq<Json>, digest: Json -> Option<string>) returns (r: Option<seq<(string, Json)>>)
    ensures r == Digests(coverage, digest)
  {
    var pairs: seq<(string, Json)> := [];
    for i := 0 to |coverage|
      invariant Digests(coverage[..i], digest) == Some(pairs)
    {
      assert coverage[..i + 1][..i] == coverage[..i];
      var d := digest(coverage[i]);
      if d.None? {
        DigestsFail(coverage, i + 1, digest);
        return None;
      }
      pairs := pairs + [(d.value, coverage[i])];
    }
    assert coverage[..|coverage|] == coverage;
    return Some(pairs);
  }

  lemma {:induction false} DigestsFail(coverage: seq<Json>, i: nat, digest: Json -> Option<string>)
    requires i <= |coverage| && Digests(coverage[..i], digest).None?
    ensures Digests(coverage, digest).None?
  {
    if i == |coverage| {
      assert coverage[..i] == coverage;
    } else {
      DigestsFail(coverage[..|coverage| - 1], i, digest) by { assert coverage[..|coverage| - 1][..i] == coverage[..i]; }
    }
  }

  /** The set holds the ids of the entities. */
  ghost predicate Known(ids: set<string>, entities: seq<Json>) {
    forall id :: id in ids <==> exists i :: 0 <= i < |entities| && EntityKey(entities[i]) == (id, "")
  }

  lemma NothingRepeated()
    ensures FirstRepeated([]).None? && Known({}, [])
  {
  }

  lemma RepeatedStep(entities: seq<Json>, entity: Json)
    requires FirstRepeated(entities).None?
    ensures FirstRepeated(entities + [entity])
         == if exists i :: 0 <= i < |entities| && EntityKey(entities[i]) == EntityKey(entity) then Some(Text(entity, "id")) else None
    ensures forall ids :: Known(ids, entities) ==> Known(ids + {Text(entity, "id")}, entities + [entity])
  {
    var more := entities + [entity];
    assert more[..|entities|] == entities;
    forall ids | Known(ids, entities) ensures Known(ids + {Text(entity, "id")}, more) {
      forall id ensures id in ids + {Text(entity, "id")} <==> exists i :: 0 <= i < |more| && EntityKey(more[i]) == (id, "") {
        if id in ids {
          var i :| 0 <= i < |entities| && EntityKey(entities[i]) == (id, "");
          assert EntityKey(more[i]) == (id, "");
        }
        assert EntityKey(more[|entities|]) == (Text(entity, "id"), "");
      }
    }
  }

  lemma {:induction false} RepeatedStays(entities: seq<Json>, rest: seq<Json>)
    requires FirstRepeated(entities).Some?
    ensures FirstRepeated(entities + rest) == FirstRepeated(entities)
  {
    if rest == [] {
      assert entities + rest == entities;
    } else {
      var n := |rest| - 1;
      RepeatedStays(entities, rest[..n]);
      assert (entities + rest)[..|entities| + n] == entities + rest[..n];
    }
  }

  lemma AllGathered(models: seq<Json>, i: nat)
    requires i < |models|
    ensures Gather(Entities, models) == (Gather(Entities, models[..i]) + Entities(models[i])) + Gather(Entities, models[i + 1..])
  {
    hide Gather, Entities;
    var left, right := models[..i], models[i + 1..];
    SplitAt(models, i);
    GatheredAround(left, models[i], right);
  }

  lemma SplitAt(models: seq<Json>, i: nat)
    requires i < |models|
    ensures models == models[..i] + [models[i]] + models[i + 1..]
  {
  }

  lemma GatheredAround(left: seq<Json>, x: Json, right: seq<Json>)
    ensures Gather(Entities, left + [x] + right) == (Gather(Entities, left) + Entities(x)) + Gather(Entities, right)
  {
    hide Gather, Entities;
    GatherConcat(Entities, left + [x], right);
    GatherStep(Entities, left, x);
  }

  /* ---------- what assembly promises ---------- */

  ghost predicate EntitiesDistinct(models: seq<Json>) {
    DistinctBy(EntityKey, Gather(Entities, models))
  }

  lemma {:induction false} RepeatedMeans(entities: seq<Json>)
    ensures FirstRepeated(entities).None? <==> DistinctBy(EntityKey, entities)
  {
    if entities != [] {
      var n := |entities| - 1;
      RepeatedMeans(entities[..n]);
      assert DistinctBy(EntityKey, entities) ==> DistinctBy(EntityKey, entities[..n]) by {
        assert forall i :: 0 <= i < n ==> entities[..n][i] == entities[i];
      }
      if FirstRepeated(entities).None? {
        forall i, j | 0 <= i < j < |entities| ensures EntityKey(entities[i]) != EntityKey(entities[j]) {
          if j < n {
            assert EntityKey(entities[..n][i]) != EntityKey(entities[..n][j]);
          }
        }
      }
    }
  }

  /**
   * Assembly of several documents fails for its entities exactly when an id repeats, within a document or
   * across them; and what it then assembles keeps every entity, relationship and unresolved entry once.
   */
  lemma FailsExactlyOnRepeats(models: seq<Json>, scope: Scope, coverage: seq<Json>, digest: Json -> Option<string>)
    requires |models| >= 2
    ensures (exists id :: Assembled(models, scope, coverage, digest) == Err(DuplicateEntity(id))) <==> !EntitiesDistinct(models)
    ensures Assembled(models, scope, coverage, digest).Ok? ==>
              var model := Assembled(models, scope, coverage, digest).value;
              && multiset(Entities(model)) == multiset(Gather(Entities, models))
              && multiset(Relationships(model)) == multiset(Gather(Relationships, models))
              && multiset(Unresolved(model)) == multiset(Gather(Unresolved, models))
              && Sorted(Order(EntityKey), Entities(model)) && DistinctBy(EntityKey, Entities(model))
  {
    RepeatedMeans(Gather(Entities, models));
    ListsShow(models, scope, coverage, digest);
    MergedEntities(models);
    hide FirstRepeated, Gather, Sort, Model, Sealed, Digests, Entities, Relationships, Unresolved, Sorted, DistinctBy;
  }

  lemma MergedEntities(models: seq<Json>)
    ensures Sorted(Order(EntityKey), Merged(Entities, EntityKey, models))
    ensures EntitiesDistinct(models) ==> DistinctBy(EntityKey, Merged(Entities, EntityKey, models))
  {
    OrderIsPreorder(EntityKey);
    SortSorted(Order(EntityKey), Gather(Entities, models));
    if EntitiesDistinct(models) {
      DistinctByPermuted(EntityKey, Gather(Entities, models), Merged(Entities, EntityKey, models));
    }
  }

  /** What an assembled model lists. */
  lemma ListsShow(models: seq<Json>, scope: Scope, coverage: seq<Json>, digest: Json -> Option<string>)
    requires |models| >= 2
    ensures Assembled(models, scope, coverage, digest).Ok? ==>
              var model := Assembled(models, scope, coverage, digest).value;
              && Entities(model) == Merged(Entities, EntityKey, models)
              && Relationships(model) == Merged(Relationships, RelationshipKey, models)
              && Unresolved(model) == Merged(Unresolved, UnresolvedKey, models)
  {
    hide FirstRepeated, Merged, Digests, Sort, Order;
  }

  lemma EntitiesPermuted(s: seq<Json>, t: seq<Json>)
    requires multiset(s) == multiset(t) && EntitiesDistinct(s)
    ensures EntitiesDistinct(t) && Merged(Entities, EntityKey, s) == Merged(Entities, EntityKey, t)
  {
    var a, b := Gather(Entities, s), Gather(Entities, t);
    GatherPermuted(Entities, s, t);
    DistinctByPermuted(EntityKey, a, b);
    OrderIsPreorder(EntityKey);
    forall x, y | x in multiset(a) && y in multiset(a) && Order(EntityKey)(x, y) && Order(EntityKey)(y, x) ensures x == y {
      PairLeOrders(EntityKey(x), EntityKey(y), EntityKey(x));
      assert x in a && y in a;
    }
    SortPermutation(Order(EntityKey), a, b);
  }

  lemma ModelsAgree(s: seq<Json>, t: seq<Json>, scope: Scope, coverage: seq<Json>, digest: Json -> Option<string>)
    requires multiset(s) == multiset(t) && |s| >= 2 && Assembled(s, scope, coverage, digest).Ok?
    ensures |t| >= 2
    ensures Assembled(t, scope, coverage, digest) == Assembled(s, scope, coverage, digest) <==>
              Merged(Relationships, RelationshipKey, t) == Merged(Relationships, RelationshipKey, s)
              && Merged(Unresolved, UnresolvedKey, t) == Merged(Unresolved, UnresolvedKey, s)
  {
    assert |multiset(s)| == |multiset(t)|;
    RepeatedMeans(Gather(Entities, s));
    RepeatedMeans(Gather(Entities, t));
    hide FirstRepeated, Merged, Digests, Sort, Order;
    EntitiesPermuted(s, t);
    ListsShow(s, scope, coverage, digest);
    ListsShow(t, scope, coverage, digest);
  }

  /**
   * The order of documents, exactly: an assembled model is the same for every permutation of its
   * documents if and only if, key by key, the relationships and the unresolved entries of any two
   * documents commute.
   */
  lemma AssemblyForgetsOrderExactly(models: seq<Json>, scope: Scope, coverage: seq<Json>, digest: Json -> Option<string>)
    requires |models| >= 2 && Assembled(models, scope, coverage, digest).Ok?
    ensures (forall t :: multiset(t) == multiset(models) ==>
               Assembled(t, scope, coverage, digest) == Assembled(models, scope, coverage, digest))
       <==> RunsCommute(Relationships, RelationshipKey, models) && RunsCommute(Unresolved, UnresolvedKey, models)
  {
    hide Assembled, Merged, RunsCommute;
    forall t | multiset(t) == multiset(models)
      ensures Assembled(t, scope, coverage, digest) == Assembled(models, scope, coverage, digest) <==>
                Merged(Relationships, RelationshipKey, t) == Merged(Relationships, RelationshipKey, models)
                && Merged(Unresolved, UnresolvedKey, t) == Merged(Unresolved, UnresolvedKey, models)
    {
      ModelsAgree(models, t, scope, coverage, digest);
    }
    MergeForgetsOrderExactly(Relationships, RelationshipKey, models);
    MergeForgetsOrderExactly(Unresolved, UnresolvedKey, models);
  }

  /** Keys that are pairwise distinct over all documents commute: a condition that is easy to check. */
  lemma DistinctKeysCommute(f: Json -> seq<Json>, key: Json -> Key, models: seq<Json>)
    requires DistinctBy(key, Gather(f, models))
    ensures RunsCommute(f, key, models)
  {
    forall k, x, y | x in models && y in models
      ensures RunOf(f, key, k)(x) + RunOf(f, key, k)(y) == RunOf(f, key, k)(y) + RunOf(f, key, k)(x)
    {
      if x != y {
        var i :| 0 <= i < |models| && models[i] == x;
        var j :| 0 <= j < |models| && models[j] == y;
        if i < j {
          OneRunIsEmpty(f, key, k, models, i, j);
        } else {
          OneRunIsEmpty(f, key, k, models, j, i);
        }
        var u, v := RunOf(f, key, k)(x), RunOf(f, key, k)(y);
        assert u + [] == u == [] + u && v + [] == v == [] + v;
      }
    }
  }

  lemma OneRunIsEmpty(f: Json -> seq<Json>, key: Json -> Key, k: Key, models: seq<Json>, i: nat, j: nat)
    requires DistinctBy(key, Gather(f, models)) && i < j < |models|
    ensures RunOf(f, key, k)(models[i]) == [] || RunOf(f, key, k)(models[j]) == []
  {
    var x, y := models[i], models[j];
    var u, v := Having(key, k, f(x)), Having(key, k, f(y));
    if u != [] && v != [] {
      HavingMembers(key, k, f(x), u[0]);
      HavingMembers(key, k, f(y), v[0]);
      var rest := TwoFirst(models, i, j);
      GatherPermuted(f, models, [x, y] + rest);
      DistinctByPermuted(key, Gather(f, models), Gather(f, [x, y] + rest));
      GatherConcat(f, [x, y], rest);
      GatherTwo(f, x, y);
      KeysClash(key, f(x), f(y), Gather(f, rest), u[0], v[0]);
    }
  }

  lemma KeysClash(key: Json -> Key, a: seq<Json>, b: seq<Json>, rest: seq<Json>, x: Json, y: Json)
    requires x in a && y in b && key(x) == key(y)
    ensures !DistinctBy(key, (a + b) + rest)
  {
    var i :| 0 <= i < |a| && a[i] == x;
    var j :| 0 <= j < |b| && b[j] == y;
    var all := (a + b) + rest;
    assert all[i] == x && all[|a| + j] == y;
  }

  /**
   * Why a condition is needed: two documents with different unresolved entries of one code and pointer
   * show their order in the assembled model.
   */
  lemma EqualKeysShowOrder(
      a: Json, b: Json, u: Json, v: Json, scope: Scope, coverage: seq<Json>, digest: Json -> Option<string>)
    requires Unresolved(a) == [u] && Unresolved(b) == [v] && u != v && UnresolvedKey(u) == UnresolvedKey(v)
    requires Assembled([a, b], scope, coverage, digest).Ok?
    ensures Assembled([a, b], scope, coverage, digest) != Assembled([b, a], scope, coverage, digest)
  {
    hide Assembled, Merged, UnresolvedKey, Unresolved;
    assert multiset([b, a]) == multiset([a, b]);
    ModelsAgree([a, b], [b, a], scope, coverage, digest);
    MergedInOrder(a, b, u, v);
  }

  lemma MergedInOrder(a: Json, b: Json, u: Json, v: Json)
    requires Unresolved(a) == [u] && Unresolved(b) == [v] && u != v && UnresolvedKey(u) == UnresolvedKey(v)
    ensures Merged(Unresolved, UnresolvedKey, [a, b]) != Merged(Unresolved, UnresolvedKey, [b, a])
  {
    hide Having, Gather, Sort, UnresolvedKey, Unresolved;
    GatherTwo(Unresolved, a, b);
    GatherTwo(Unresolved, b, a);
    assert [u] + [v] == [u, v] && [v] + [u] == [v, u];
    SortsAgreeExactly(UnresolvedKey, [u, v], [v, u]);
    BothHave(u, v);
    BothHave(v, u);
    assert [u, v][0] != [v, u][0];
  }

  lemma BothHave(u: Json, v: Json)
    requires UnresolvedKey(u) == UnresolvedKey(v)
    ensures Having(UnresolvedKey, UnresolvedKey(u), [u, v]) == [u, v]
  {
    assert [u, v] == [u] + [v] && [u] == [] + [u];
    HavingStep(UnresolvedKey, UnresolvedKey(u), [u], v);
    HavingStep(UnresolvedKey, UnresolvedKey(u), [], u);
  }

  /* ---------- what an assembled model says ---------- */

  /** The entries that a document has under a name. */
  function Listed(name: string): Json -> seq<Json> {
    (model: Json) => match model.Get(name) case Some(Arr(items)) => items case _ => []
  }

  function TextAt(value: Json, key: string): string {
    match value.Get(key) case Some(Str(s)) => s case _ => ""
  }

  function IdKey(): Json -> Key {
    (e: Json) => (TextAt(e, "id"), "")
  }

  /** Relationships by record kind, then by id, or by assertion id where there is no id. */
  function RecordKey(): Json -> Key {
    (r: Json) => (TextAt(r, "record_kind"), TextAt(r, if r.Get("id") == None then "assertion_id" else "id"))
  }

  function CodeKey(): Json -> Key {
    (u: Json) => (TextAt(u, "code"), TextAt(u, "source_pointer"))
  }

  /** Everything that the documents have under a name, sorted by a key and else in the order of the documents. */
  ghost predicate SortedFrom(models: seq<Json>, name: string, key: Json -> Key, entries: seq<Json>) {
    var all := Gather(Listed(name), models);
    multiset(entries) == multiset(all) && SameRuns(key, entries, all)
    && forall i, j :: 0 <= i < j < |entries| ==> PairLe(key(entries[i]), key(entries[j]))
  }

  /** All coverage, sorted by digest. */
  ghost predicate CoverageFrom(coverage: seq<Json>, digest: Json -> Option<string>, artifacts: seq<Json>) {
    multiset(artifacts) == multiset(coverage) && (forall x :: x in artifacts ==> digest(x).Some?)
    && forall i, j :: 0 <= i < j < |artifacts| ==>
         digest(artifacts[i]).Some? && digest(artifacts[j]).Some? && StringLe(digest(artifacts[i]).value, digest(artifacts[j]).value)
  }

  ghost predicate HeaderSays(scope: Scope, model: Json) {
    model.Obj?
    && model.fields.Keys
       == {"schema_version", "type", "mode", "scope_root", "architecture_namespace", "entities", "relationships", "unresolved",
           "validation_summary", "source_coverage", "fingerprint"}
    && model.Get("schema_version") == Some(Str("2.4")) && model.Get("type") == Some(Str("normalized_architecture_model"))
    && model.Get("mode") == Some(Str("normalized")) && model.Get("scope_root") == Some(Str(scope.provider))
    && model.Get("architecture_namespace") == Some(Str(scope.namespace))
  }

  /** The lists of a model and what it says about their sizes. */
  ghost predicate ListsSay(
      models: seq<Json>, coverage: seq<Json>, digest: Json -> Option<string>, model: Json, entities: seq<Json>,
      relationships: seq<Json>, unresolved: seq<Json>, artifacts: seq<Json>)
  {
    && model.Get("entities") == Some(Arr(entities)) && SortedFrom(models, "entities", IdKey(), entities)
    && model.Get("relationships") == Some(Arr(relationships)) && SortedFrom(models, "relationships", RecordKey(), relationships)
    && model.Get("unresolved") == Some(Arr(unresolved)) && SortedFrom(models, "unresolved", CodeKey(), unresolved)
    && model.Get("source_coverage") == Some(Obj(map["source_artifacts" := Arr(artifacts)]))
    && CoverageFrom(coverage, digest, artifacts)
    && model.Get("validation_summary")
       == Some(Obj(map["entity_count" := Number(|entities|), "source_artifact_count" := Number(|coverage|)]))
  }

  /** The fingerprint is the digest of the model without it. */
  ghost predicate FingerprintSays(digest: Json -> Option<string>, model: Json) {
    model.Obj? && exists fingerprint :: digest(Obj(model.fields - {"fingerprint"})) == Some(fingerprint)
                                        && model.Get("fingerprint") == Some(Str(fingerprint))
  }

  ghost predicate ModelSays(
      models: seq<Json>, scope: Scope, coverage: seq<Json>, digest: Json -> Option<string>, model: Json)
  {
    HeaderSays(scope, model) && FingerprintSays(digest, model)
    && exists entities, relationships, unresolved, artifacts ::
         ListsSay(models, coverage, digest, model, entities, relationships, unresolved, artifacts)
  }

  lemma {:induction false} GatherAlike(f: Json -> seq<Json>, g: Json -> seq<Json>, models: seq<Json>)
    requires forall m :: f(m) == g(m)
    ensures Gather(f, models) == Gather(g, models)
  {
    if models != [] {
      GatherAlike(f, g, models[..|models| - 1]);
    }
  }

  lemma {:induction false} HavingAlike(f: Json -> Key, g: Json -> Key, k: Key, s: seq<Json>)
    requires forall x :: f(x) == g(x)
    ensures Having(f, k, s) == Having(g, k, s)
  {
    if s != [] {
      HavingAlike(f, g, k, s[..|s| - 1]);
    }
  }

  lemma MergedIsSorted(models: seq<Json>, name: string, f: Json -> seq<Json>, key: Json -> Key, own: Json -> Key)
    requires (forall m :: f(m) == Listed(name)(m)) && forall x :: key(x) == own(x)
    ensures SortedFrom(models, name, own, Merged(f, key, models))
  {
    hide Sort, Gather, Having;
    GatherAlike(f, Listed(name), models);
    var all, r := Gather(f, models), Merged(f, key, models);
    OrderIsPreorder(key);
    SortSorted(Order(key), all);
    forall k ensures Having(own, k, r) == Having(own, k, all) {
      SortIsStable(key, k, all);
      HavingAlike(key, own, k, r);
      HavingAlike(key, own, k, all);
    }
    forall i, j | 0 <= i < j < |r| ensures PairLe(own(r[i]), own(r[j])) {
      assert Order(key)(r[i], r[j]);
    }
  }

  lemma {:induction false} DigestsMean(coverage: seq<Json>, digest: Json -> Option<string>)
    ensures Digests(coverage, digest).Some? <==> forall x :: x in coverage ==> digest(x).Some?
    ensures Digests(coverage, digest).Some? ==>
              var pairs := Digests(coverage, digest).value;
              Map(Covered, pairs) == coverage && forall p :: p in pairs ==> digest(p.1) == Some(p.0)
  {
    if coverage != [] {
      var n := |coverage| - 1;
      DigestsMean(coverage[..n], digest);
      assert coverage == coverage[..n] + [coverage[n]];
      if Digests(coverage, digest).Some? {
        var init := Digests(coverage[..n], digest).value;
        MapAppend(init, (digest(coverage[n]).value, coverage[n]));
      }
    }
  }

  lemma MapAppend(pairs: seq<(string, Json)>, p: (string, Json))
    ensures Map(Covered, pairs + [p]) == Map(Covered, pairs) + [p.1]
  {
  }

  lemma CoverageSorted(coverage: seq<Json>, digest: Json -> Option<string>)
    requires Digests(coverage, digest).Some?
    ensures CoverageFrom(coverage, digest, Map(Covered, Sort(Order(DigestKey), Digests(coverage, digest).value)))
    ensures |Map(Covered, Sort(Order(DigestKey), Digests(coverage, digest).value))| == |coverage|
  {
    DigestsMean(coverage, digest);
    hide Digests, Sort;
    var pairs := Digests(coverage, digest).value;
    var r := Sort(Order(DigestKey), pairs);
    OrderIsPreorder(DigestKey);
    SortSorted(Order(DigestKey), pairs);
    MapPermuted(Covered, r, pairs);
    forall p ensures p in r <==> p in pairs {
      SameMembers(r, pairs, p);
    }
    var artifacts := Map(Covered, r);
    assert |multiset(artifacts)| == |multiset(coverage)|;
    forall x | x in artifacts ensures digest(x).Some? {
      var i :| 0 <= i < |artifacts| && artifacts[i] == x;
      assert r[i] in r;
    }
    forall i, j | 0 <= i < j < |artifacts|
      ensures digest(artifacts[i]).Some? && digest(artifacts[j]).Some? && StringLe(digest(artifacts[i]).value, digest(artifacts[j]).value)
    {
      assert r[i] in r && r[j] in r;
      assert Order(DigestKey)(r[i], r[j]);
      DigestsCompare(r[i], r[j]);
    }
  }

  lemma DigestsCompare(x: (string, Json), y: (string, Json))
    ensures Order(DigestKey)(x, y) ==> StringLe(x.0, y.0)
  {
    StringLeTotal(x.0, y.0);
    var a, b := DigestKey(x), DigestKey(y);
    assert a.0 == x.0 && b.0 == y.0;
    assert Order(DigestKey)(x, y) == PairLe(a, b);
    hide StringLe;
  }

  /** The first entity whose id an earlier one has. */
  ghost predicate FirstTwice(entities: seq<Json>, n: nat, id: string) {
    n < |entities| && TextAt(entities[n], "id") == id && (exists i :: 0 <= i < n && TextAt(entities[i], "id") == id)
    && forall i, j :: 0 <= i < j < n ==> TextAt(entities[i], "id") != TextAt(entities[j], "id")
  }

  /** The id is the first that is repeated, within a document or across them. */
  ghost predicate RepeatedFirst(models: seq<Json>, id: string) {
    exists n: nat :: FirstTwice(Gather(Listed("entities"), models), n, id)
  }

  lemma {:induction false} RepeatedExactly(entities: seq<Json>, id: string)
    ensures FirstRepeated(entities) == Some(id) <==> exists n: nat :: FirstTwice(entities, n, id)
    ensures FirstRepeated(entities).None? <==>
              forall i, j :: 0 <= i < j < |entities| ==> TextAt(entities[i], "id") != TextAt(entities[j], "id")
  {
    hide TextAt;
    forall e ensures TextAt(e, "id") == Text(e, "id") {
      SameText(e);
    }
    hide Text;
    if entities != [] {
      var m := |entities| - 1;
      var init := entities[..m];
      RepeatedExactly(init, id);
      TwiceLater(entities, id);
      hide FirstTwice;
      if n: nat :| FirstTwice(entities, n, id) {
        assert n <= m;
      }
    }
  }

  lemma TwiceLater(entities: seq<Json>, id: string)
    requires entities != []
    ensures var m := |entities| - 1;
            && (forall n: nat :: FirstTwice(entities, n, id) ==> n <= m && (n < m ==> FirstTwice(entities[..m], n, id)))
            && (forall n: nat :: FirstTwice(entities[..m], n, id) ==> FirstTwice(entities, n, id))
            && (FirstTwice(entities, m, id) <==>
                  TextAt(entities[m], "id") == id && (exists i :: 0 <= i < m && TextAt(entities[i], "id") == id)
                  && forall i, j :: 0 <= i < j < m ==> TextAt(entities[..m][i], "id") != TextAt(entities[..m][j], "id"))
  {
    hide TextAt;
    var m := |entities| - 1;
    assert forall i :: 0 <= i < m ==> entities[..m][i] == entities[i];
  }

  lemma SameText(e: Json)
    ensures TextAt(e, "id") == Text(e, "id")
  {
  }

  /**
   * Assembly, exactly: nothing comes of no document, a single one is passed on, the first repeated id is
   * refused, and else the model says what the documents say.
   */
  lemma AssembledExactly(models: seq<Json>, scope: Scope, coverage: seq<Json>, digest: Json -> Option<string>)
    ensures var r := Assembled(models, scope, coverage, digest);
            && (r == Err(NoDocuments) <==> models == []) && (|models| == 1 ==> r == Ok(models[0]))
            && (|models| >= 2 ==>
                  && (forall id :: r == Err(DuplicateEntity(id)) <==> RepeatedFirst(models, id))
                  && (r.Ok? ==> ModelSays(models, scope, coverage, digest, r.value))
                  && (r == Err(Undigestable) ==> (exists x :: x in coverage && digest(x).None?) || exists m :: digest(m).None?))
  {
    hide RepeatedFirst, Assembled, ModelSays;
    if |models| < 2 {
      FewDocuments(models, scope, coverage, digest);
    } else {
      RefusesRepeats(models, scope, coverage, digest);
      SaysOrFails(models, scope, coverage, digest);
    }
  }

  lemma FewDocuments(models: seq<Json>, scope: Scope, coverage: seq<Json>, digest: Json -> Option<string>)
    ensures Assembled(models, scope, coverage, digest) == Err(NoDocuments) <==> models == []
    ensures |models| == 1 ==> Assembled(models, scope, coverage, digest) == Ok(models[0])
  {
    hide FirstRepeated, Digests, Model, Gather, Merged, Sort;
  }

  lemma FailsFor(models: seq<Json>, scope: Scope, coverage: seq<Json>, digest: Json -> Option<string>)
    requires |models| >= 2
    ensures var r, repeated := Assembled(models, scope, coverage, digest), FirstRepeated(Gather(Entities, models));
            && (repeated.Some? ==> r == Err(DuplicateEntity(repeated.value)))
            && (repeated.None? ==> r.Ok? || r == Err(Undigestable))
  {
    hide FirstRepeated, Digests, Model, Gather, Merged, Sort;
  }

  lemma RefusesRepeats(models: seq<Json>, scope: Scope, coverage: seq<Json>, digest: Json -> Option<string>)
    requires |models| >= 2
    ensures Assembled(models, scope, coverage, digest) != Err(NoDocuments)
    ensures forall id :: Assembled(models, scope, coverage, digest) == Err(DuplicateEntity(id)) <==> RepeatedFirst(models, id)
  {
    FailsFor(models, scope, coverage, digest);
    hide Assembled, FirstRepeated, RepeatedFirst;
    forall id ensures FirstRepeated(Gather(Entities, models)) == Some(id) <==> RepeatedFirst(models, id) {
      RepeatedModels(models, id);
    }
  }

  lemma RepeatedModels(models: seq<Json>, id: string)
    ensures FirstRepeated(Gather(Entities, models)) == Some(id) <==> RepeatedFirst(models, id)
  {
    hide FirstTwice, FirstRepeated, Gather;
    GatherAlike(Entities, Listed("entities"), models);
    RepeatedExactly(Gather(Entities, models), id);
  }

  lemma SaysOrFails(models: seq<Json>, scope: Scope, coverage: seq<Json>, digest: Json -> Option<string>)
    requires |models| >= 2
    ensures var r := Assembled(models, scope, coverage, digest);
            && (r.Ok? ==> ModelSays(models, scope, coverage, digest, r.value))
            && (r == Err(Undigestable) ==> (exists x :: x in coverage && digest(x).None?) || exists m :: digest(m).None?)
  {
    DigestsMean(coverage, digest);
    hide FirstRepeated, Digests, Model, Sealed, ModelSays, Gather, Merged, Sort, SortedFrom, CoverageFrom;
    if FirstRepeated(Gather(Entities, models)).None? && Digests(coverage, digest).Some? {
      CoverageSorted(coverage, digest);
      MergedIsSorted(models, "entities", Entities, EntityKey, IdKey());
      MergedIsSorted(models, "relationships", Relationships, RelationshipKey, RecordKey());
      MergedIsSorted(models, "unresolved", Unresolved, UnresolvedKey, CodeKey());
      SealedSays(models, scope, coverage, digest, Merged(Entities, EntityKey, models),
        Merged(Relationships, RelationshipKey, models), Merged(Unresolved, UnresolvedKey, models),
        Map(Covered, Sort(Order(DigestKey), Digests(coverage, digest).value)));
    }
  }

  lemma SealedSays(
      models: seq<Json>, scope: Scope, coverage: seq<Json>, digest: Json -> Option<string>,
      entities: seq<Json>, relationships: seq<Json>, unresolved: seq<Json>, artifacts: seq<Json>)
    requires SortedFrom(models, "entities", IdKey(), entities) && SortedFrom(models, "relationships", RecordKey(), relationships)
    requires SortedFrom(models, "unresolved", CodeKey(), unresolved)
    requires CoverageFrom(coverage, digest, artifacts) && |artifacts| == |coverage|
    ensures var r := Sealed(Model(scope, entities, relationships, unresolved, artifacts), digest);
            && (r.Ok? ==> ModelSays(models, scope, coverage, digest, r.value))
            && (r.Err? ==> r == Err(Undigestable) && exists m :: digest(m).None?)
  {
    hide SortedFrom, CoverageFrom, Model, HeaderSays, ListsSay;
    var plain := Model(scope, entities, relationships, unresolved, artifacts);
    if digest(Obj(plain)).Some? {
      var fingerprint := digest(Obj(plain)).value;
      var model := Obj(plain["fingerprint" := Str(fingerprint)]);
      HeaderWritten(scope, entities, relationships, unresolved, artifacts, fingerprint);
      ListsWritten(models, scope, coverage, digest, entities, relationships, unresolved, artifacts, fingerprint);
      NoFingerprintYet(scope, entities, relationships, unresolved, artifacts);
      assert model.fields - {"fingerprint"} == plain;
      assert FingerprintSays(digest, model);
      hide FingerprintSays;
    }
  }

  lemma NoFingerprintYet(scope: Scope, entities: seq<Json>, relationships: seq<Json>, unresolved: seq<Json>, artifacts: seq<Json>)
    ensures "fingerprint" !in Model(scope, entities, relationships, unresolved, artifacts)
  {
  }

  lemma HeaderWritten(
      scope: Scope, entities: seq<Json>, relationships: seq<Json>, unresolved: seq<Json>, artifacts: seq<Json>, fingerprint: string)
    ensures HeaderSays(scope, Obj(Model(scope, entities, relationships, unresolved, artifacts)["fingerprint" := Str(fingerprint)]))
  {
  }

  lemma ListsHeld(
      scope: Scope, entities: seq<Json>, relationships: seq<Json>, unresolved: seq<Json>, artifacts: seq<Json>, fingerprint: string)
    ensures var model := Obj(Model(scope, entities, relationships, unresolved, artifacts)["fingerprint" := Str(fingerprint)]);
            && model.Get("entities") == Some(Arr(entities)) && model.Get("relationships") == Some(Arr(relationships))
            && model.Get("unresolved") == Some(Arr(unresolved))
  {
  }

  lemma CountsHeld(
      scope: Scope, entities: seq<Json>, relationships: seq<Json>, unresolved: seq<Json>, artifacts: seq<Json>, fingerprint: string)
    ensures var model := Obj(Model(scope, entities, relationships, unresolved, artifacts)["fingerprint" := Str(fingerprint)]);
            && model.Get("source_coverage") == Some(Obj(map["source_artifacts" := Arr(artifacts)]))
            && model.Get("validation_summary")
               == Some(Obj(map["entity_count" := Number(|entities|), "source_artifact_count" := Number(|artifacts|)]))
  {
  }

  lemma ListsWritten(
      models: seq<Json>, scope: Scope, coverage: seq<Json>, digest: Json -> Option<string>,
      entities: seq<Json>, relationships: seq<Json>, unresolved: seq<Json>, artifacts: seq<Json>, fingerprint: string)
    requires SortedFrom(models, "entities", IdKey(), entities) && SortedFrom(models, "relationships", RecordKey(), relationships)
    requires SortedFrom(models, "unresolved", CodeKey(), unresolved)
    requires CoverageFrom(coverage, digest, artifacts) && |artifacts| == |coverage|
    ensures ListsSay(models, coverage, digest,
              Obj(Model(scope, entities, relationships, unresolved, artifacts)["fingerprint" := Str(fingerprint)]),
              entities, relationships, unresolved, artifacts)
  {
    ListsHeld(scope, entities, relationships, unresolved, artifacts, fingerprint);
    CountsHeld(scope, entities, relationships, unresolved, artifacts, fingerprint);
    hide SortedFrom, CoverageFrom, Model, Json.Get;
  }
}
