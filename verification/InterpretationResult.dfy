/** What a successful interpretation returns, in terms of the document alone. */
module InterpretationResult {
  import opened Prelude
  import opened Ordering
  import opened Grouping
  import opened StableMerge
  import opened Interpretation
  import opened InterpretationLaws

  /* ---------- the order of places ---------- */

  ghost function Class(p: Place): nat {
    match p
    case AtRoot => 0
    case AtPart(_) => 1
    case AtEdge(_) => 2
    case AtComponent(_) => 3
    case AtCustom(_) => 4
  }

  /** The order of the document: the root, then fragments, edges, components and custom relationships. */
  ghost predicate Precedes(p: Place, q: Place) {
    Class(p) < Class(q)
    || (p.AtPart? && q.AtPart? && p.i < q.i) || (p.AtEdge? && q.AtEdge? && p.i < q.i)
    || (p.AtComponent? && q.AtComponent? && p.i < q.i) || (p.AtCustom? && q.AtCustom? && p.i < q.i)
  }

  ghost function RelationsPrecede(): (Relation, Relation) -> bool {
    (x: Relation, y: Relation) => Precedes(x.place, y.place)
  }

  ghost function EntriesPrecede(): (Unresolved, Unresolved) -> bool {
    (x: Unresolved, y: Unresolved) => Precedes(x.place, y.place)
  }

  /* ---------- what a document owes ---------- */

  /** An unclear fragment, or an edge with a key that no component has. */
  ghost predicate Owed(d: Document, u: Unresolved) {
    match u.place
    case AtRoot => u.Unreadable? && d.root == Unclear(u.code)
    case AtPart(i) =>
      u.Unreadable? && i < |d.parts| && !RootAgain(d, d.parts[i]) && d.parts[i].reading == Unclear(u.code)
    case AtEdge(i) =>
      i < |AuthoredEdges(d)| && Unmatched(d.topology.value.components, AuthoredEdges(d)[i], u, i)
      && !(HasKey(d.topology.value.components, AuthoredEdges(d)[i].fromKey)
           && HasKey(d.topology.value.components, AuthoredEdges(d)[i].toKey))
    case _ => false
  }

  ghost function PlaceAt(d: Document, i: nat): Place {
    var n, m := |AuthoredEdges(d)|, |ListedComponents(d)|;
    if i < n then AtEdge(i) else if i < n + m then AtComponent(i - n) else AtCustom(i - n - m)
  }

  lemma EdgePlace(d: Document, i: nat)
    requires i < |AuthoredEdges(d)| && !EdgeOutcome(d.topology.value.components, AuthoredEdges(d)[i], i).Failed?
    ensures var o := EdgeOutcome(d.topology.value.components, AuthoredEdges(d)[i], i);
            && (o.Related? ==> o.relation.place == AtEdge(i) && Closed(d, o.relation))
            && (o.Left? ==> o.unresolved.place == AtEdge(i) && Owed(d, o.unresolved))
  {
    hide EdgeOutcome, Unmatched, HasKey, WellKeyed, Declares;
    AuthoredParts(d);
    EdgeMeans(d.topology.value.components, AuthoredEdges(d)[i], i);
    if EdgeOutcome(d.topology.value.components, AuthoredEdges(d)[i], i).Related? {
      EdgeIsDerived(d.topology.value.components, AuthoredEdges(d)[i], i);
    } else {
      UnmatchedPlace(d.topology.value.components, AuthoredEdges(d)[i], EdgeOutcome(d.topology.value.components, AuthoredEdges(d)[i], i).unresolved, i);
    }
  }

  lemma UnmatchedPlace(components: Components, edge: Edge, entry: Unresolved, i: nat)
    requires Unmatched(components, edge, entry, i)
    ensures entry.place == AtEdge(i)
  {
  }

  /** What the outcome of one position is: closed or owed, at its place. */
  lemma OutcomeAt(d: Document, classes: map<string, bool>, forbidden: set<string>, i: nat)
    requires i < |Outcomes(d, classes, forbidden)| && !Outcomes(d, classes, forbidden)[i].Failed?
    requires forall id :: id in classes <==> id in EntityIds(d, |d.parts|)
    ensures var o := Outcomes(d, classes, forbidden)[i];
            && (o.Related? ==> o.relation.place == PlaceAt(d, i) && Closed(d, o.relation))
            && (o.Left? ==> o.unresolved.place == PlaceAt(d, i) && Owed(d, o.unresolved))
  {
    hide EdgeOutcome, EntityIds, Outcomes, Closed, Owed, Unmatched;
    AuthoredParts(d);
    OutcomePlaces(d, classes, forbidden);
    OutcomeSizes(d, classes, forbidden);
    var n, m := |AuthoredEdges(d)|, |ListedComponents(d)|;
    if i < n {
      EdgePlace(d, i);
    } else if i < n + m {
      ComponentPlace(d, classes, forbidden, i - n);
    } else {
      CustomPlace(d, classes, forbidden, i - n - m);
    }
  }

  lemma OutcomeSizes(d: Document, classes: map<string, bool>, forbidden: set<string>)
    ensures |Outcomes(d, classes, forbidden)| == |AuthoredEdges(d)| + |ListedComponents(d)| + |d.customs|
  {
    AuthoredParts(d);
  }

  lemma ComponentPlace(d: Document, classes: map<string, bool>, forbidden: set<string>, i: nat)
    requires i < |ListedComponents(d)|
    requires var outcomes := Outcomes(d, classes, forbidden);
             |outcomes| > |AuthoredEdges(d)| + i && !outcomes[|AuthoredEdges(d)| + i].Failed?
    ensures var o := Outcomes(d, classes, forbidden)[|AuthoredEdges(d)| + i];
            o.Related? && o.relation.place == AtComponent(i) && Closed(d, o.relation)
  {
    hide EdgeOutcome, CustomOutcome;
    AuthoredParts(d);
  }

  lemma CustomPlace(d: Document, classes: map<string, bool>, forbidden: set<string>, i: nat)
    requires i < |d.customs| && forall id :: id in classes <==> id in EntityIds(d, |d.parts|)
    requires var outcomes := Outcomes(d, classes, forbidden);
             var n := |AuthoredEdges(d)| + |ListedComponents(d)|;
             |outcomes| > n + i && !outcomes[n + i].Failed?
    ensures var o := Outcomes(d, classes, forbidden)[|AuthoredEdges(d)| + |ListedComponents(d)| + i];
            o.Related? && o.relation.place == AtCustom(i) && Closed(d, o.relation)
  {
    hide EdgeOutcome, ComponentOutcome, EntityIds;
    AuthoredParts(d);
    OutcomePlaces(d, classes, forbidden);
    hide Outcomes;
    assert Outcomes(d, classes, forbidden)[|EdgesOf(d)| + |ComponentsOf(d)| + i] == CustomOutcome(classes, forbidden, d.customs[i], i);
  }

  /** Two closed relations of one place are the same. */
  lemma ClosedOnce(d: Document, x: Relation, y: Relation)
    requires Closed(d, x) && Closed(d, y) && x.place == y.place && !x.place.AtEdge?
    ensures x == y
  {
    hide EntityIds;
  }

  lemma ClosedPlace(d: Document, x: Relation)
    requires Closed(d, x)
    ensures var n, m := |AuthoredEdges(d)|, |ListedComponents(d)|;
            match x.place
            case AtEdge(i) => i < n
            case AtComponent(i) => i < m
            case AtCustom(i) => i < |d.customs|
            case _ => false
  {
    hide EntityIds;
  }

  /** Everything that is closed is the outcome of its position. */
  lemma OutcomeOf(d: Document, classes: map<string, bool>, forbidden: set<string>, relation: Relation) returns (i: nat)
    requires NoneFailed(Outcomes(d, classes, forbidden)) && Closed(d, relation)
    requires forall id :: id in classes <==> id in EntityIds(d, |d.parts|)
    ensures i < |Outcomes(d, classes, forbidden)| && Outcomes(d, classes, forbidden)[i] == Related(relation)
  {
    var n, m := |AuthoredEdges(d)|, |ListedComponents(d)|;
    OutcomeSizes(d, classes, forbidden);
    hide Outcomes, AuthoredEdges, ListedComponents, EntityIds, Closed;
    ClosedPlace(d, relation);
    if relation.place.AtEdge? {
      i := relation.place.i;
      EdgeOutcomeOf(d, classes, forbidden, relation);
    } else if relation.place.AtComponent? {
      i := n + relation.place.i;
      ComponentPlace(d, classes, forbidden, relation.place.i);
      ClosedOnce(d, relation, Outcomes(d, classes, forbidden)[i].relation);
    } else {
      i := n + m + relation.place.i;
      CustomPlace(d, classes, forbidden, relation.place.i);
      ClosedOnce(d, relation, Outcomes(d, classes, forbidden)[i].relation);
    }
  }

  lemma EdgeOutcomeOf(d: Document, classes: map<string, bool>, forbidden: set<string>, relation: Relation)
    requires NoneFailed(Outcomes(d, classes, forbidden)) && Closed(d, relation) && relation.place.AtEdge?
    ensures relation.place.i < |Outcomes(d, classes, forbidden)| && Outcomes(d, classes, forbidden)[relation.place.i] == Related(relation)
  {
    AuthoredParts(d);
    OutcomeSizes(d, classes, forbidden);
    OutcomePlaces(d, classes, forbidden);
    hide Outcomes, EdgeOutcome, Declares, EdgesOf, ComponentsOf;
    var k := relation.place.i;
    assert !Outcomes(d, classes, forbidden)[k].Failed?;
    DeclaredEdge(d.topology.value.components, AuthoredEdges(d)[k], k, relation);
  }

  /** Declared ends make an edge related, and there is one reference for each. */
  lemma DeclaredEdge(components: Components, edge: Edge, i: nat, relation: Relation)
    requires !EdgeOutcome(components, edge, i).Failed?
    requires Declares(ListOf(components), edge.fromKey, relation.from) && Declares(ListOf(components), edge.toKey, relation.to)
    requires relation.place == AtEdge(i) && relation.kind == edge.kind && !relation.canonical
    ensures EdgeOutcome(components, edge, i) == Related(relation)
  {
    EdgeMeans(components, edge, i);
    assert HasKey(components, edge.fromKey) && HasKey(components, edge.toKey);
    var o := EdgeOutcome(components, edge, i);
    EdgeIsDerived(components, edge, i);
    OneReference(ListOf(components), edge.fromKey, relation.from, o.relation.from);
    OneReference(ListOf(components), edge.toKey, relation.to, o.relation.to);
    hide EdgeOutcome;
  }

  lemma OneReference(components: seq<Component>, key: string, first: string, second: string)
    requires WellKeyed(components) && Declares(components, key, first) && Declares(components, key, second)
    ensures first == second
  {
    var a :| a in components && a.key == Some(key) && a.ref == Some(first);
    var b :| b in components && b.key == Some(key) && b.ref == Some(second);
    var i :| 0 <= i < |components| && components[i] == a;
    var j :| 0 <= j < |components| && components[j] == b;
    assert KeyOf(a) == KeyOf(b);
  }

  /* ---------- the lists in order ---------- */

  lemma PlacesIncrease(d: Document, i: nat, j: nat)
    requires i < j
    ensures Precedes(PlaceAt(d, i), PlaceAt(d, j)) && Class(PlaceAt(d, i)) >= 2
  {
  }

  /** The outcome at each position is about that position. */
  ghost predicate Positioned(d: Document, outcomes: seq<Outcome>) {
    forall i :: 0 <= i < |outcomes| ==>
      (outcomes[i].Related? ==> outcomes[i].relation.place == PlaceAt(d, i))
      && (outcomes[i].Left? ==> outcomes[i].unresolved.place == PlaceAt(d, i))
  }

  ghost predicate FromFirst(d: Document, n: nat, p: Place) {
    exists i :: 0 <= i < n && p == PlaceAt(d, i)
  }

  lemma {:induction false} RelationsInOrder(d: Document, outcomes: seq<Outcome>)
    requires Positioned(d, outcomes)
    ensures Pairwise(RelationsPrecede(), Gather(RelationsIn, outcomes))
    ensures forall x :: x in Gather(RelationsIn, outcomes) ==> FromFirst(d, |outcomes|, x.place)
  {
    hide PlaceAt, Precedes;
    if outcomes != [] {
      var n := |outcomes| - 1;
      RelationsInOrder(d, outcomes[..n]);
      var earlier, last := Gather(RelationsIn, outcomes[..n]), RelationsIn(outcomes[n]);
      forall x | x in earlier ensures FromFirst(d, |outcomes|, x.place) && Precedes(x.place, PlaceAt(d, n)) {
        var i :| 0 <= i < n && x.place == PlaceAt(d, i);
        PlacesIncrease(d, i, n);
      }
      assert forall i :: 0 <= i < |earlier| ==> earlier[i] in earlier;
      assert forall x :: x in earlier + last <==> x in earlier || x in last;
    }
  }

  lemma {:induction false} EntriesInOrder(d: Document, outcomes: seq<Outcome>)
    requires Positioned(d, outcomes)
    ensures Pairwise(EntriesPrecede(), Gather(EntriesIn, outcomes))
    ensures forall x :: x in Gather(EntriesIn, outcomes) ==> FromFirst(d, |outcomes|, x.place)
  {
    hide PlaceAt, Precedes;
    if outcomes != [] {
      var n := |outcomes| - 1;
      EntriesInOrder(d, outcomes[..n]);
      var earlier, last := Gather(EntriesIn, outcomes[..n]), EntriesIn(outcomes[n]);
      forall x | x in earlier ensures FromFirst(d, |outcomes|, x.place) && Precedes(x.place, PlaceAt(d, n)) {
        var i :| 0 <= i < n && x.place == PlaceAt(d, i);
        PlacesIncrease(d, i, n);
      }
      assert forall i :: 0 <= i < |earlier| ==> earlier[i] in earlier;
      assert forall x :: x in earlier + last <==> x in earlier || x in last;
    }
  }

  /** What fragment `i` owes. */
  ghost function UnclearAt(d: Document, i: nat): seq<Unresolved>
    requires i < |d.parts|
  {
    match d.parts[i].reading
    case Unclear(code) => if RootAgain(d, d.parts[i]) then [] else [Unreadable(AtPart(i), code)]
    case _ => []
  }

  ghost predicate FromParts(d: Document, n: nat, u: Unresolved) {
    Owed(d, u) && (u.place.AtRoot? || (u.place.AtPart? && u.place.i < n))
  }

  lemma UnclearStep(d: Document, n: nat, u: Unresolved)
    requires 0 < n <= |d.parts|
    ensures FromParts(d, n, u) <==> FromParts(d, n - 1, u) || u in UnclearAt(d, n - 1)
    ensures u in UnclearAt(d, n - 1) ==> u.place == AtPart(n - 1)
  {
    hide RootAgain, Unmatched, HasKey;
  }

  lemma {:induction false} UnclearInOrder(d: Document, n: nat)
    requires n <= |d.parts|
    ensures Pairwise(EntriesPrecede(), UnclearEntries(d, n))
    ensures forall u :: u in UnclearEntries(d, n) <==> FromParts(d, n, u)
  {
    if n == 0 {
      hide RootAgain, Unmatched, HasKey;
    } else {
      UnclearInOrder(d, n - 1);
      var earlier, last := UnclearEntries(d, n - 1), UnclearAt(d, n - 1);
      assert UnclearEntries(d, n) == earlier + last;
      hide UnclearEntries;
      forall u ensures FromParts(d, n, u) <==> FromParts(d, n - 1, u) || u in last {
        UnclearStep(d, n, u);
      }
      forall u, v | u in earlier && v in last ensures EntriesPrecede()(u, v) {
        UnclearStep(d, n, v);
        assert FromParts(d, n - 1, u);
      }
      assert |last| <= 1;
      hide FromParts, UnclearAt, EntriesPrecede;
      PairwiseAppend(earlier, last);
      assert forall u :: u in earlier + last <==> u in earlier || u in last;
    }
  }

  lemma PairwiseAppend(earlier: seq<Unresolved>, last: seq<Unresolved>)
    requires Pairwise(EntriesPrecede(), earlier) && |last| <= 1
    requires forall u, v :: u in earlier && v in last ==> EntriesPrecede()(u, v)
    ensures Pairwise(EntriesPrecede(), earlier + last)
  {
    hide EntriesPrecede;
    assert forall i :: 0 <= i < |earlier| ==> earlier[i] in earlier;
    if last != [] {
      assert last[0] in last;
    }
  }

  lemma OwedEdge(d: Document, u: Unresolved)
    requires Owed(d, u)
    ensures u.place.AtRoot? || (u.place.AtPart? && u.place.i < |d.parts|) || (u.place.AtEdge? && u.place.i < |AuthoredEdges(d)|)
  {
  }

  /** All entries, in the order of the document. */
  lemma AllEntries(d: Document, outcomes: seq<Outcome>)
    requires Positioned(d, outcomes)
    ensures Pairwise(EntriesPrecede(), UnclearEntries(d, |d.parts|) + Gather(EntriesIn, outcomes))
  {
    var first, second := UnclearEntries(d, |d.parts|), Gather(EntriesIn, outcomes);
    UnclearInOrder(d, |d.parts|);
    EntriesInOrder(d, outcomes);
    hide UnclearEntries, Gather, PlaceAt, Owed;
    forall u, v | u in first && v in second ensures Precedes(u.place, v.place) {
      var i :| 0 <= i < |outcomes| && v.place == PlaceAt(d, i);
      PlacesIncrease(d, i, i + 1);
    }
    hide Precedes;
    var all := first + second;
    forall i, j | 0 <= i < j < |all| ensures EntriesPrecede()(all[i], all[j]) {
      if j < |first| {
        assert EntriesPrecede()(first[i], first[j]);
      } else if i < |first| {
        assert all[i] in first && all[j] in second;
      } else {
        assert EntriesPrecede()(second[i - |first|], second[j - |first|]);
      }
    }
  }

  function RelationPlace(x: Relation): Place { x.place }

  function EntryPlace(u: Unresolved): Place { u.place }

  ghost predicate IdsInOrder(ids: seq<string>) {
    forall i, j :: 0 <= i < j < |ids| ==> StringLe(ids[i], ids[j]) && ids[i] != ids[j]
  }

  ghost predicate RelationsArrayed(relations: seq<Relation>, key: Relation -> Key) {
    (forall i, j :: 0 <= i < j < |relations| ==>
       PairLe(key(relations[i]), key(relations[j]))
       && (key(relations[i]) == key(relations[j]) ==> Precedes(relations[i].place, relations[j].place)))
    && DistinctBy(RelationPlace, relations)
  }

  ghost predicate EntriesArrayed(entries: seq<Unresolved>, key: Unresolved -> Key) {
    (forall i, j :: 0 <= i < j < |entries| ==>
       PairLe(key(entries[i]), key(entries[j]))
       && (key(entries[i]) == key(entries[j]) ==> Precedes(entries[i].place, entries[j].place)))
    && DistinctBy(EntryPlace, entries)
  }

  /** Sorted by the keys, and in the order of the document where they are equal; nothing twice. */
  ghost predicate Arrayed(r: Interpreted, keys: Keys) {
    IdsInOrder(r.ids) && RelationsArrayed(r.relations, keys.relation) && EntriesArrayed(r.unresolved, keys.unresolved)
  }

  /**
   * The result, exactly: the ids of the entities, one relationship for every edge whose keys are declared,
   * every listed component and every custom relationship, and one entry for every unclear fragment and every
   * edge that misses a key; each list sorted, and nothing else in it.
   */
  lemma ResultExactly(d: Document, forbidden: set<string>, keys: Keys)
    requires Interpret(d, forbidden, keys).Ok?
    ensures var r := Interpret(d, forbidden, keys).value;
            && (forall id :: id in r.ids <==> exists custom :: Classifies(d, |d.parts|, id, custom))
            && (forall x :: x in r.relations <==> Closed(d, x))
            && (forall u :: u in r.unresolved <==> Owed(d, u))
            && Arrayed(r, keys)
  {
    hide ReadParts, Outcomes, EntityIds, Closed, Owed, Settle, DistinctBy, UnclearEntries, Classifies;
    ReadPartsMeans(d, |d.parts|);
    var known := ReadParts(d, |d.parts|).value;
    var outcomes := Outcomes(d, known.classes, forbidden);
    SettleMeans(outcomes, known.unresolved);
    ListsExactly(d, known, forbidden, outcomes);
    var relations, entries := Gather(RelationsIn, outcomes), known.unresolved + Gather(EntriesIn, outcomes);
    var r := Interpret(d, forbidden, keys).value;
    assert r == Finish(known.ids, Settled(relations, entries), keys);
    FinishedExactly(known.ids, relations, entries, keys);
    forall id ensures id in r.ids <==> exists custom :: Classifies(d, |d.parts|, id, custom) {
      SameMembers(r.ids, known.ids, id);
      ClassifiedIds(d, |d.parts|, id);
    }
    forall x ensures x in r.relations <==> Closed(d, x) {
      SameMembers(r.relations, relations, x);
    }
    forall u ensures u in r.unresolved <==> Owed(d, u) {
      SameMembers(r.unresolved, entries, u);
    }
  }

  lemma ListsExactly(d: Document, known: Known, forbidden: set<string>, outcomes: seq<Outcome>)
    requires outcomes == Outcomes(d, known.classes, forbidden) && NoneFailed(outcomes)
    requires (forall id :: id in known.classes <==> id in EntityIds(d, |d.parts|)) && known.unresolved == UnclearEntries(d, |d.parts|)
    ensures var relations, entries := Gather(RelationsIn, outcomes), known.unresolved + Gather(EntriesIn, outcomes);
            && (forall x :: x in relations <==> Closed(d, x)) && (forall u :: u in entries <==> Owed(d, u))
            && Pairwise(RelationsPrecede(), relations) && Pairwise(EntriesPrecede(), entries)
  {
    hide EntityIds, Outcomes, Closed, Owed, UnclearEntries, PlaceAt, Precedes, RelationsPrecede, EntriesPrecede;
    forall i: nat | i < |outcomes|
      ensures (outcomes[i].Related? ==> outcomes[i].relation.place == PlaceAt(d, i) && Closed(d, outcomes[i].relation))
              && (outcomes[i].Left? ==> outcomes[i].unresolved.place == PlaceAt(d, i) && Owed(d, outcomes[i].unresolved))
    {
      OutcomeAt(d, known.classes, forbidden, i);
    }
    RelationsInOrder(d, outcomes);
    AllEntries(d, outcomes);
    hide Pairwise;
    forall x ensures x in Gather(RelationsIn, outcomes) <==> Closed(d, x) {
      RelationListed(d, known.classes, forbidden, outcomes, x);
    }
    forall u ensures u in known.unresolved + Gather(EntriesIn, outcomes) <==> Owed(d, u) {
      EntryListed(d, known.classes, forbidden, outcomes, u);
    }
  }

  lemma RelationListed(d: Document, classes: map<string, bool>, forbidden: set<string>, outcomes: seq<Outcome>, x: Relation)
    requires outcomes == Outcomes(d, classes, forbidden) && NoneFailed(outcomes)
    requires forall id :: id in classes <==> id in EntityIds(d, |d.parts|)
    requires forall i: nat :: i < |outcomes| && outcomes[i].Related? ==> Closed(d, outcomes[i].relation)
    ensures x in Gather(RelationsIn, outcomes) <==> Closed(d, x)
  {
    hide EntityIds, Outcomes, Closed;
    GatherMembers(RelationsIn, outcomes, x);
    if Closed(d, x) {
      var i := OutcomeOf(d, classes, forbidden, x);
      assert outcomes[i] in outcomes && x in RelationsIn(outcomes[i]);
    }
    if x in Gather(RelationsIn, outcomes) {
      var i := RelatedAt(outcomes, x);
    }
  }

  lemma EntryListed(d: Document, classes: map<string, bool>, forbidden: set<string>, outcomes: seq<Outcome>, u: Unresolved)
    requires outcomes == Outcomes(d, classes, forbidden) && NoneFailed(outcomes)
    requires forall id :: id in classes <==> id in EntityIds(d, |d.parts|)
    requires forall i: nat :: i < |outcomes| && outcomes[i].Left? ==>
               Owed(d, outcomes[i].unresolved) && outcomes[i].unresolved.place == PlaceAt(d, i)
    ensures u in UnclearEntries(d, |d.parts|) + Gather(EntriesIn, outcomes) <==> Owed(d, u)
  {
    UnclearInOrder(d, |d.parts|);
    GatherMembers(EntriesIn, outcomes, u);
    OutcomeSizes(d, classes, forbidden);
    hide EntityIds, Outcomes, Owed, UnclearEntries, Gather, PlaceAt, Pairwise;
    if Owed(d, u) {
      OwedEdge(d, u);
      if u.place.AtEdge? {
        EdgeOwed(d, classes, forbidden, u);
        assert outcomes[u.place.i] in outcomes && u in EntriesIn(outcomes[u.place.i]);
      }
    }
    if o :| o in outcomes && u in EntriesIn(o) {
      var i: nat :| i < |outcomes| && outcomes[i] == o;
    }
  }

  lemma EdgeOwed(d: Document, classes: map<string, bool>, forbidden: set<string>, u: Unresolved)
    requires Owed(d, u) && u.place.AtEdge? && NoneFailed(Outcomes(d, classes, forbidden))
    ensures u.place.i < |Outcomes(d, classes, forbidden)| && Outcomes(d, classes, forbidden)[u.place.i] == Left(u)
  {
    AuthoredParts(d);
    OutcomePlaces(d, classes, forbidden);
    OutcomeSizes(d, classes, forbidden);
    hide Outcomes, EdgeOutcome, HasKey, WellKeyed;
    var i := u.place.i;
    EdgeMeans(d.topology.value.components, AuthoredEdges(d)[i], i);
  }

  lemma FinishedExactly(ids: seq<string>, relations: seq<Relation>, entries: seq<Unresolved>, keys: Keys)
    requires DistinctBy(Itself, ids) && Pairwise(RelationsPrecede(), relations) && Pairwise(EntriesPrecede(), entries)
    ensures Arrayed(Finish(ids, Settled(relations, entries), keys), keys)
  {
    RelationsFinished(relations, keys.relation);
    EntriesFinished(entries, keys.unresolved);
    IdsSorted(ids);
    hide Sort, Order, IdsInOrder, RelationsArrayed, EntriesArrayed;
  }

  lemma RelationsFinished(relations: seq<Relation>, key: Relation -> Key)
    requires Pairwise(RelationsPrecede(), relations)
    ensures RelationsArrayed(Sort(Order(key), relations), key)
  {
    SortKeepsTies(RelationsPrecede(), key, relations);
    forall i, j | 0 <= i < j < |relations| ensures relations[i].place != relations[j].place {
      assert RelationsPrecede()(relations[i], relations[j]);
    }
    DistinctByPermuted(RelationPlace, relations, Sort(Order(key), relations));
    hide Sort, Order, Precedes, PairLe, DistinctBy, Pairwise;
  }

  lemma EntriesFinished(entries: seq<Unresolved>, key: Unresolved -> Key)
    requires Pairwise(EntriesPrecede(), entries)
    ensures EntriesArrayed(Sort(Order(key), entries), key)
  {
    SortKeepsTies(EntriesPrecede(), key, entries);
    forall i, j | 0 <= i < j < |entries| ensures entries[i].place != entries[j].place {
      assert EntriesPrecede()(entries[i], entries[j]);
    }
    DistinctByPermuted(EntryPlace, entries, Sort(Order(key), entries));
    hide Sort, Order, Precedes, PairLe, DistinctBy, Pairwise;
  }

  lemma IdOrder(x: string, y: string)
    ensures Order(IdKey)(x, y) && x != y ==> StringLe(x, y)
  {
    var a, b := IdKey(x), IdKey(y);
    assert a.0 == x && b.0 == y;
    assert Order(IdKey)(x, y) == PairLe(a, b);
    hide StringLe;
    assert x != y ==> PairLe(a, b) == StringLe(a.0, b.0);
  }

  lemma IdsSorted(ids: seq<string>)
    requires DistinctBy(Itself, ids)
    ensures IdsInOrder(Sort(Order(IdKey), ids))
  {
    var r := Sort(Order(IdKey), ids);
    OrderIsPreorder(IdKey);
    SortSorted(Order(IdKey), ids);
    DistinctByPermuted(Itself, ids, r);
    hide Sort;
    forall i, j | 0 <= i < j < |r| ensures StringLe(r[i], r[j]) && r[i] != r[j] {
      assert Itself(r[i]) != Itself(r[j]);
      IdOrder(r[i], r[j]);
    }
  }
}
