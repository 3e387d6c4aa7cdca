/** What a successful interpretation promises, and exactly when there is one. */
module InterpretationLaws {
  import opened Prelude
  import opened Ordering
  import opened Grouping
  import opened StableMerge
  import opened Interpretation

  /* ---------- entities ---------- */

  /** The ids of the entities that a reading contributes. */
  function IdsOf(r: Reading): seq<string> {
    if r.Entity? then [r.id] else []
  }

  /** The part is the system descriptor that only repeats the identity of the document. */
  ghost predicate RootAgain(d: Document, part: Part) {
    part.isSystem && part.writtenId == d.writtenId
  }

  /** The edges that the document authors. */
  ghost function AuthoredEdges(d: Document): seq<Edge> {
    match d.topology
    case Some(Topology(_, edges)) => edges
    case None => []
  }

  /** The components that the document lists. */
  ghost function ListedComponents(d: Document): seq<Component> {
    match d.topology
    case Some(Topology(Listed(items), _)) => items
    case _ => []
  }

  /** All entity ids, the root's first; the repeated system descriptor left out. */
  ghost function EntityIds(d: Document, n: nat): seq<string>
    requires n <= |d.parts|
  {
    if n == 0 then IdsOf(d.root)
    else EntityIds(d, n - 1) + if RootAgain(d, d.parts[n - 1]) then [] else IdsOf(d.parts[n - 1].reading)
  }

  ghost predicate NothingRefused(d: Document, n: nat)
    requires n <= |d.parts|
  {
    !d.root.Refused? && forall i :: 0 <= i < n && !RootAgain(d, d.parts[i]) ==> !d.parts[i].reading.Refused?
  }

  /** One entry for an unclear root and one for every unclear part, in order, with its place and code. */
  ghost function UnclearEntries(d: Document, n: nat): seq<Unresolved>
    requires n <= |d.parts|
  {
    if n == 0 then if d.root.Unclear? then [Unreadable(AtRoot, d.root.code)] else []
    else
      UnclearEntries(d, n - 1)
      + match d.parts[n - 1].reading
        case Unclear(code) => if RootAgain(d, d.parts[n - 1]) then [] else [Unreadable(AtPart(n - 1), code)]
        case _ => []
  }

  /** The classification that the root or a part gives to an id. */
  ghost predicate Classifies(d: Document, n: nat, id: string, custom: bool)
    requires n <= |d.parts|
  {
    d.root == Entity(id, custom)
    || exists i :: 0 <= i < n && !RootAgain(d, d.parts[i]) && d.parts[i].reading == Entity(id, custom)
  }

  function Itself(id: string): string { id }

  lemma AppendDistinct(ids: seq<string>, id: string)
    ensures DistinctBy(Itself, ids + [id]) <==> DistinctBy(Itself, ids) && id !in ids
  {
    var all := ids + [id];
    assert forall i :: 0 <= i < |ids| ==> all[i] == ids[i];
    if DistinctBy(Itself, all) {
      forall i | 0 <= i < |ids| ensures ids[i] != id {
        assert Itself(all[i]) != Itself(all[|ids|]);
      }
      forall i, j | 0 <= i < j < |ids| ensures Itself(ids[i]) != Itself(ids[j]) {
        assert Itself(all[i]) != Itself(all[j]);
      }
    }
  }

  lemma ClassifiesStep(d: Document, n: nat, id: string, custom: bool)
    requires 0 < n <= |d.parts|
    ensures Classifies(d, n, id, custom) <==>
              Classifies(d, n - 1, id, custom)
              || (!RootAgain(d, d.parts[n - 1]) && d.parts[n - 1].reading == Entity(id, custom))
  {
    hide RootAgain;
  }

  lemma {:induction false} ClassifiedIds(d: Document, n: nat, id: string)
    requires n <= |d.parts|
    ensures id in EntityIds(d, n) <==> exists custom :: Classifies(d, n, id, custom)
  {
    hide RootAgain;
    if n == 0 {
      if id in EntityIds(d, 0) {
        assert Classifies(d, 0, id, d.root.custom);
      }
    } else {
      ClassifiedIds(d, n - 1, id);
      forall custom
        ensures Classifies(d, n, id, custom) <==>
                  Classifies(d, n - 1, id, custom)
                  || (!RootAgain(d, d.parts[n - 1]) && d.parts[n - 1].reading == Entity(id, custom))
      {
        ClassifiesStep(d, n, id, custom);
      }
      hide Classifies;
      var part := d.parts[n - 1];
      if part.reading.Entity? && !RootAgain(d, part) && part.reading.id == id {
        assert Classifies(d, n, id, part.reading.custom);
      }
    }
  }

  /**
   * Reading the entities, exactly: nothing is refused and no id repeats; then the ids, their classifications
   * and the unclear entries are those of the document.
   */
  lemma {:induction false} ReadPartsMeans(d: Document, n: nat)
    requires n <= |d.parts|
    ensures ReadParts(d, n).Ok? <==> NothingRefused(d, n) && DistinctBy(Itself, EntityIds(d, n))
    ensures ReadParts(d, n).Ok? ==>
              ReadParts(d, n).value.ids == EntityIds(d, n)
              && ReadParts(d, n).value.unresolved == UnclearEntries(d, n)
              && forall id :: id in ReadParts(d, n).value.classes <==> id in EntityIds(d, n)
    ensures ReadParts(d, n).Ok? ==>
              forall id :: id in ReadParts(d, n).value.classes ==> Classifies(d, n, id, ReadParts(d, n).value.classes[id])
  {
    hide Classifies;
    if n == 0 {
      ReadRootMeans(d);
    } else {
      ReadPartsMeans(d, n - 1);
      var part, ids := d.parts[n - 1], EntityIds(d, n - 1);
      forall id, custom
        ensures Classifies(d, n, id, custom) <==>
                  Classifies(d, n - 1, id, custom) || (!RootAgain(d, part) && part.reading == Entity(id, custom))
      {
        ClassifiesStep(d, n, id, custom);
      }
      assert UnclearEntries(d, n - 1) + [] == UnclearEntries(d, n - 1);
      if Skipped(d, part) || !part.reading.Entity? {
        assert ids + [] == ids;
      } else {
        AppendDistinct(ids, part.reading.id);
        assert forall id :: id in ids + [part.reading.id] <==> id in ids || id == part.reading.id;
      }
    }
  }

  lemma ReadRootMeans(d: Document)
    ensures ReadParts(d, 0).Ok? <==> NothingRefused(d, 0) && DistinctBy(Itself, EntityIds(d, 0))
    ensures ReadParts(d, 0).Ok? ==>
              ReadParts(d, 0).value.ids == EntityIds(d, 0)
              && ReadParts(d, 0).value.unresolved == UnclearEntries(d, 0)
              && (forall id :: id in ReadParts(d, 0).value.classes <==> id in EntityIds(d, 0))
              && forall id :: id in ReadParts(d, 0).value.classes ==> Classifies(d, 0, id, ReadParts(d, 0).value.classes[id])
  {
  }

  /* ---------- topology keys ---------- */

  ghost predicate Declares(components: seq<Component>, key: string, ref: string) {
    exists c :: c in components && c.key == Some(key) && c.ref == Some(ref)
  }

  function KeyOf(c: Component): Option<string> { c.key }

  ghost predicate WellKeyed(components: seq<Component>) {
    (forall c :: c in components ==> c.key.Some? && c.ref.Some?) && DistinctBy(KeyOf, components)
  }

  /** The index exists exactly for well-keyed components, and is then their key-to-reference relation. */
  lemma {:induction false} IndexMeans(components: seq<Component>)
    ensures IndexOf(components).Ok? <==> WellKeyed(components)
    ensures IndexOf(components).Ok? ==>
              forall key :: key in IndexOf(components).value.refs <==> exists c :: c in components && c.key == Some(key)
    ensures IndexOf(components).Ok? ==>
              forall key :: key in IndexOf(components).value.refs ==>
                Declares(components, key, IndexOf(components).value.refs[key])
  {
    if components != [] {
      var init, last := components[..|components| - 1], components[|components| - 1];
      assert components == init + [last];
      assert forall c :: c in components <==> c in init || c == last;
      IndexMeans(init);
      WellKeyedAppend(init, last);
    }
  }

  lemma WellKeyedAppend(init: seq<Component>, last: Component)
    ensures WellKeyed(init + [last]) <==>
              WellKeyed(init) && last.key.Some? && last.ref.Some? && !(exists c :: c in init && c.key == last.key)
  {
    var all := init + [last];
    assert forall c :: c in all <==> c in init || c == last;
    assert forall i :: 0 <= i < |init| ==> all[i] == init[i];
    if DistinctBy(KeyOf, all) {
      forall c | c in init ensures c.key != last.key {
        var i :| 0 <= i < |init| && init[i] == c;
        assert KeyOf(all[i]) != KeyOf(all[|init|]);
      }
      forall i, j | 0 <= i < j < |init| ensures KeyOf(init[i]) != KeyOf(init[j]) {
        assert KeyOf(all[i]) != KeyOf(all[j]);
      }
    }
    if WellKeyed(init) && !(exists c :: c in init && c.key == last.key) {
      forall i, j | 0 <= i < j < |all| ensures KeyOf(all[i]) != KeyOf(all[j]) {
        if j < |init| {
          assert KeyOf(init[i]) != KeyOf(init[j]);
        } else {
          assert all[i] in init;
        }
      }
    }
  }

  function ListOf(components: Components): seq<Component> {
    if components.Listed? then components.items else []
  }

  ghost predicate HasKey(components: Components, key: string) {
    exists c :: c in ListOf(components) && c.key == Some(key)
  }

  /**
   * The entry of an edge: the keys that no component has, each once and the first end first; and beside
   * them the end that a component has, if there is one.
   */
  ghost predicate Unmatched(components: Components, edge: Edge, entry: Unresolved, i: nat) {
    var from, to := HasKey(components, edge.fromKey), HasKey(components, edge.toKey);
    entry == MissingKeys(AtEdge(i),
               if from then [edge.fromKey] else if to then [edge.toKey] else [],
               if from then [edge.toKey] else if to || edge.fromKey == edge.toKey then [edge.fromKey]
               else [edge.fromKey, edge.toKey])
  }

  ghost predicate KeysInOrder(components: seq<Component>, order: seq<string>) {
    |order| == |components| && forall i :: 0 <= i < |order| ==> components[i].key == Some(order[i])
  }

  lemma {:induction false} OrderOfKeys(components: seq<Component>)
    requires IndexOf(components).Ok?
    ensures KeysInOrder(components, IndexOf(components).value.order)
  {
    if components != [] {
      OrderOfKeys(components[..|components| - 1]);
    }
  }

  /** Of the listed keys, those of the edge that are resolved, in order. */
  lemma {:induction false} ResolvedOnce(index: Index, edge: Edge, order: seq<string>, key: string)
    requires Distinct(order) && forall k :: KeyResolved(index, edge, k) ==> k == key
    ensures ResolvedKeys(index, edge, order) == if key in order && KeyResolved(index, edge, key) then [key] else []
  {
    hide KeyResolved;
    if order != [] {
      var n := |order| - 1;
      LastIsNew(order);
      hide Distinct;
      ResolvedOnce(index, edge, order[..n], key);
    }
  }

  lemma LastIsNew(order: seq<string>)
    requires Distinct(order) && order != []
    ensures var n := |order| - 1;
            Distinct(order[..n]) && order[n] !in order[..n] && forall key :: key in order <==> key in order[..n] || key == order[n]
  {
    var n := |order| - 1;
    assert order == order[..n] + [order[n]];
    assert forall i :: 0 <= i < n ==> order[..n][i] == order[i];
  }

  lemma OrderIsDistinct(components: seq<Component>)
    requires IndexOf(components).Ok?
    ensures Distinct(IndexOf(components).value.order)
    ensures forall key :: key in IndexOf(components).value.order <==> exists c :: c in components && c.key == Some(key)
  {
    IndexMeans(components);
    OrderOfKeys(components);
    KeysAreDistinct(components, IndexOf(components).value.order);
  }

  lemma KeysAreDistinct(components: seq<Component>, order: seq<string>)
    requires KeysInOrder(components, order) && DistinctBy(KeyOf, components)
    ensures Distinct(order)
    ensures forall key :: key in order <==> exists c :: c in components && c.key == Some(key)
  {
    forall i, j | 0 <= i < j < |order| ensures order[i] != order[j] {
      assert KeyOf(components[i]) != KeyOf(components[j]);
    }
    forall key ensures key in order <==> exists c :: c in components && c.key == Some(key) {
      if c :| c in components && c.key == Some(key) {
        var i :| 0 <= i < |components| && components[i] == c;
        assert order[i] == key;
      }
      if key in order {
        var i :| 0 <= i < |order| && order[i] == key;
        assert components[i] in components;
      }
    }
  }

  /** What the index says about an edge that misses a key. */
  lemma IndexedEdge(index: Index, edge: Edge)
    requires Distinct(index.order) && forall key :: key in index.refs <==> key in index.order
    requires Missing(index, edge) != []
    ensures var from, to := edge.fromKey in index.refs, edge.toKey in index.refs;
            && Missing(index, edge)
               == (if from then [edge.toKey] else if to || edge.fromKey == edge.toKey then [edge.fromKey]
                   else [edge.fromKey, edge.toKey])
            && ResolvedKeys(index, edge, index.order)
               == if from then [edge.fromKey] else if to then [edge.toKey] else []
  {
    ResolvedOnce(index, edge, index.order, if edge.fromKey in index.refs then edge.fromKey else edge.toKey);
    hide ResolvedKeys;
  }

  lemma IndexHasKeys(components: Components)
    requires TopologyIndex(components).Ok?
    ensures var index := TopologyIndex(components).value;
            Distinct(index.order) && forall key :: (key in index.refs <==> key in index.order) && (key in index.refs <==> HasKey(components, key))
  {
    IndexMeans(ListOf(components));
    NoComponentsIndex();
    OrderIsDistinct(ListOf(components));
    hide IndexOf, WellKeyed, Distinct, Declares;
  }

  lemma UnresolvedEdge(components: Components, edge: Edge, i: nat)
    requires EdgeOutcome(components, edge, i).Left?
    ensures Unmatched(components, edge, EdgeOutcome(components, edge, i).unresolved, i)
  {
    IndexHasKeys(components);
    hide TopologyIndex, HasKey, ResolvedKeys, Missing, Distinct;
    IndexedEdge(TopologyIndex(components).value, edge);
  }

  /**
   * One edge, exactly: it fails only for a forbidden kind or badly keyed components; it is related if
   * both keys are declared, and then its endpoints are the declared references; else it is unresolved, with
   * the keys that are missing and the one that is not.
   */
  lemma EdgeMeans(components: Components, edge: Edge, i: nat)
    ensures var o := EdgeOutcome(components, edge, i);
            && (o.Failed? <==> edge.kind !in FORWARD || components.NoList? || !WellKeyed(ListOf(components)))
            && (o.Related? ==>
                  o.relation.place == AtEdge(i) && o.relation.kind == edge.kind
                  && Declares(ListOf(components), edge.fromKey, o.relation.from)
                  && Declares(ListOf(components), edge.toKey, o.relation.to))
            && (o.Left? ==> Unmatched(components, edge, o.unresolved, i))
            && (!o.Failed? ==> (o.Related? <==> HasKey(components, edge.fromKey) && HasKey(components, edge.toKey)))
  {
    IndexMeans(ListOf(components));
    if EdgeOutcome(components, edge, i).Left? {
      UnresolvedEdge(components, edge, i);
    }
    hide IndexOf, WellKeyed, Unmatched;
    if components.Absent? {
      NoComponentsIndex();
    }
  }

  lemma NoComponentsIndex()
    ensures IndexOf([]) == Ok(Index(map[], []))
  {
  }

  /* ---------- the lists ---------- */

  ghost predicate NoneFailed(outcomes: seq<Outcome>) {
    forall i :: 0 <= i < |outcomes| ==> !outcomes[i].Failed?
  }

  function RelationsIn(o: Outcome): seq<Relation> { if o.Related? then [o.relation] else [] }

  function EntriesIn(o: Outcome): seq<Unresolved> { if o.Left? then [o.unresolved] else [] }

  lemma {:induction false} SettleMeans(outcomes: seq<Outcome>, start: seq<Unresolved>)
    ensures Settle(outcomes, start).Ok? <==> NoneFailed(outcomes)
    ensures Settle(outcomes, start).Ok? ==>
              Settle(outcomes, start).value == Settled(Gather(RelationsIn, outcomes), start + Gather(EntriesIn, outcomes))
  {
    if outcomes == [] {
      assert start + [] == start;
    } else {
      var n := |outcomes| - 1;
      SettleMeans(outcomes[..n], start);
      assert NoneFailed(outcomes) <==> NoneFailed(outcomes[..n]) && !outcomes[n].Failed?;
      var g, h := Gather(RelationsIn, outcomes[..n]), Gather(EntriesIn, outcomes[..n]);
      assert g + [] == g && h + [] == h;
      assert start + (h + EntriesIn(outcomes[n])) == (start + h) + EntriesIn(outcomes[n]);
    }
  }

  lemma SettlePrefix(outcomes: seq<Outcome>, n: nat)
    requires n <= |outcomes| && NoneFailed(outcomes)
    ensures NoneFailed(outcomes[..n])
  {
  }

  /* ---------- success ---------- */

  ghost predicate CustomFine(d: Document, forbidden: set<string>, c: Custom) {
    c.kind !in forbidden && c.qualified && c.complete
    && c.from.Some? && c.from.value in EntityIds(d, |d.parts|) && c.to.Some? && c.to.value in EntityIds(d, |d.parts|)
  }

  ghost predicate TopologyFine(d: Document) {
    (AuthoredEdges(d) != [] ==> !d.topology.value.components.NoList? && WellKeyed(ListedComponents(d)))
    && (forall e :: e in AuthoredEdges(d) ==> e.kind in FORWARD)
    && (d.topology.Some? && d.topology.value.components.Listed? ==> d.system.Some?)
    && (forall c :: c in ListedComponents(d) ==> c.ref.Some?)
  }

  lemma AuthoredParts(d: Document)
    ensures EdgesOf(d) == AuthoredEdges(d) && ComponentsOf(d) == ListedComponents(d)
    ensures d.topology.Some? ==> ListOf(d.topology.value.components) == ListedComponents(d)
  {
  }

  /** What a document needs to be interpreted, part by part. */
  ghost predicate Interpretable(d: Document, forbidden: set<string>) {
    NothingRefused(d, |d.parts|) && DistinctBy(Itself, EntityIds(d, |d.parts|)) && TopologyFine(d)
    && forall c :: c in d.customs ==> CustomFine(d, forbidden, c)
  }

  lemma OutcomesFine(d: Document, classes: map<string, bool>, forbidden: set<string>)
    requires forall id :: id in classes <==> id in EntityIds(d, |d.parts|)
    ensures NoneFailed(Outcomes(d, classes, forbidden)) && !LacksSystem(d) <==>
              TopologyFine(d) && forall c :: c in d.customs ==> CustomFine(d, forbidden, c)
  {
    hide EdgeOutcome, EntityIds, Outcomes, WellKeyed;
    OutcomePlaces(d, classes, forbidden);
    var outcomes, n, m := Outcomes(d, classes, forbidden), |EdgesOf(d)|, |ComponentsOf(d)|;
    forall i | 0 <= i < n
      ensures outcomes[i].Failed? <==>
                EdgesOf(d)[i].kind !in FORWARD || d.topology.value.components.NoList?
                || !WellKeyed(ListOf(d.topology.value.components))
    {
      EdgeMeans(d.topology.value.components, EdgesOf(d)[i], i);
    }
    if NoneFailed(outcomes) && !LacksSystem(d) {
      FineFromOutcomes(d, classes, forbidden, outcomes);
    }
    if TopologyFine(d) && (forall c :: c in d.customs ==> CustomFine(d, forbidden, c)) {
      OutcomesFromFine(d, classes, forbidden, outcomes);
    }
  }

  ghost predicate Arranged(d: Document, classes: map<string, bool>, forbidden: set<string>, outcomes: seq<Outcome>) {
    var n, m := |EdgesOf(d)|, |ComponentsOf(d)|;
    |outcomes| == n + m + |d.customs|
    && (forall i :: 0 <= i < n ==>
          (outcomes[i].Failed? <==> EdgesOf(d)[i].kind !in FORWARD || d.topology.value.components.NoList?
                                    || !WellKeyed(ListOf(d.topology.value.components))))
    && (forall i :: 0 <= i < m && d.system.Some? ==> outcomes[n + i] == ComponentOutcome(d.system.value, ComponentsOf(d)[i], i))
    && (forall i :: 0 <= i < |d.customs| ==> outcomes[n + m + i] == CustomOutcome(classes, forbidden, d.customs[i], i))
  }

  lemma FineFromOutcomes(d: Document, classes: map<string, bool>, forbidden: set<string>, outcomes: seq<Outcome>)
    requires Arranged(d, classes, forbidden, outcomes) && NoneFailed(outcomes) && !LacksSystem(d)
    requires forall id :: id in classes <==> id in EntityIds(d, |d.parts|)
    ensures TopologyFine(d) && forall c :: c in d.customs ==> CustomFine(d, forbidden, c)
  {
    hide EntityIds, WellKeyed;
    var n, m := |EdgesOf(d)|, |ComponentsOf(d)|;
    forall e | e in EdgesOf(d) ensures e.kind in FORWARD {
      var i :| 0 <= i < n && EdgesOf(d)[i] == e;
      assert !outcomes[i].Failed?;
    }
    if EdgesOf(d) != [] {
      assert !outcomes[0].Failed?;
    }
    forall c | c in ComponentsOf(d) ensures c.ref.Some? {
      var i :| 0 <= i < m && ComponentsOf(d)[i] == c;
      assert !outcomes[n + i].Failed?;
    }
    forall c | c in d.customs ensures CustomFine(d, forbidden, c) {
      var i :| 0 <= i < |d.customs| && d.customs[i] == c;
      assert !outcomes[n + m + i].Failed?;
    }
  }

  lemma OutcomesFromFine(d: Document, classes: map<string, bool>, forbidden: set<string>, outcomes: seq<Outcome>)
    requires Arranged(d, classes, forbidden, outcomes) && TopologyFine(d)
    requires forall c :: c in d.customs ==> CustomFine(d, forbidden, c)
    requires forall id :: id in classes <==> id in EntityIds(d, |d.parts|)
    ensures NoneFailed(outcomes)
  {
    hide EntityIds, WellKeyed, CustomOutcome, ComponentOutcome;
    var n, m := |EdgesOf(d)|, |ComponentsOf(d)|;
    forall i | 0 <= i < |outcomes| ensures !outcomes[i].Failed? {
      if i < n {
        assert EdgesOf(d)[i] in EdgesOf(d);
      } else if i < n + m {
        var c := ComponentsOf(d)[i - n];
        assert c in ComponentsOf(d) && outcomes[n + (i - n)] == ComponentOutcome(d.system.value, c, i - n);
        ComponentRelates(d.system.value, c, i - n);
      } else {
        var c := d.customs[i - n - m];
        assert c in d.customs && outcomes[n + m + (i - n - m)] == CustomOutcome(classes, forbidden, c, i - n - m);
        CustomRelates(d, classes, forbidden, c, i - n - m);
      }
    }
  }

  lemma ComponentRelates(system: string, c: Component, i: nat)
    requires c.ref.Some?
    ensures ComponentOutcome(system, c, i).Related?
  {
  }

  lemma CustomRelates(d: Document, classes: map<string, bool>, forbidden: set<string>, c: Custom, i: nat)
    requires CustomFine(d, forbidden, c) && forall id :: id in classes <==> id in EntityIds(d, |d.parts|)
    ensures CustomOutcome(classes, forbidden, c, i).Related?
  {
    hide EntityIds;
  }

  /**
   * Interpretation, exactly: it succeeds if and only if nothing is refused, no entity id repeats, the
   * topology is well keyed where it is used, and every custom relationship is allowed, qualified, complete
   * and between entities of this document.
   */
  lemma InterpretsExactly(d: Document, forbidden: set<string>, keys: Keys)
    ensures Interpret(d, forbidden, keys).Ok? <==> Interpretable(d, forbidden)
  {
    hide ReadParts, Outcomes, Finish, NothingRefused, EntityIds, TopologyFine, CustomFine, DistinctBy;
    ReadPartsMeans(d, |d.parts|);
    if ReadParts(d, |d.parts|).Ok? {
      var known := ReadParts(d, |d.parts|).value;
      var outcomes, n := Outcomes(d, known.classes, forbidden), |EdgesOf(d)|;
      OutcomesFine(d, known.classes, forbidden);
      SettleMeans(outcomes, known.unresolved);
      SettleMeans(outcomes[..n], known.unresolved);
      if NoneFailed(outcomes) {
        SettlePrefix(outcomes, n);
      }
    }
  }

  /* ---------- what comes out ---------- */

  /** The outcome of one position became exactly one entry of the lists. */
  ghost predicate Partitioned(outcomes: seq<Outcome>, start: seq<Unresolved>, r: Interpreted) {
    NoneFailed(outcomes)
    && multiset(r.relations) == multiset(Gather(RelationsIn, outcomes))
    && multiset(r.unresolved) == multiset(start + Gather(EntriesIn, outcomes))
    && |r.relations| + |r.unresolved| == |start| + |outcomes|
  }

  lemma {:induction false} OneEach(outcomes: seq<Outcome>)
    requires NoneFailed(outcomes)
    ensures |Gather(RelationsIn, outcomes)| + |Gather(EntriesIn, outcomes)| == |outcomes|
  {
    if outcomes != [] {
      OneEach(outcomes[..|outcomes| - 1]);
    }
  }

  /**
   * The partition: the ids are distinct and those of the entities, and every edge, component and custom
   * relationship is exactly one relationship or one unresolved entry of the result, beside the entries
   * of unclear fragments.
   */
  lemma SuccessPartitions(d: Document, forbidden: set<string>, keys: Keys)
    requires Interpret(d, forbidden, keys).Ok?
    ensures var r, known := Interpret(d, forbidden, keys).value, ReadParts(d, |d.parts|).value;
            && ReadParts(d, |d.parts|).Ok?
            && multiset(r.ids) == multiset(EntityIds(d, |d.parts|)) && DistinctBy(Itself, r.ids)
            && Partitioned(Outcomes(d, known.classes, forbidden), UnclearEntries(d, |d.parts|), r)
            && |r.relations| + |r.unresolved|
               == |UnclearEntries(d, |d.parts|)| + |AuthoredEdges(d)| + |ListedComponents(d)| + |d.customs|
  {
    AuthoredParts(d);
    hide ReadParts, Outcomes, EntityIds, EdgesOf, ComponentsOf, AuthoredEdges, ListedComponents, UnclearEntries, Gather, Sort;
    ReadPartsMeans(d, |d.parts|);
    var known := ReadParts(d, |d.parts|).value;
    var outcomes := Outcomes(d, known.classes, forbidden);
    SettleMeans(outcomes, known.unresolved);
    OneEach(outcomes);
    DistinctByPermuted(Itself, known.ids, Sort(Order(IdKey), known.ids));
  }

  /** A relation of the result stands for one position of the document, and its endpoints are closed. */
  ghost predicate Closed(d: Document, relation: Relation) {
    match relation.place
    case AtEdge(i) =>
      i < |AuthoredEdges(d)| && relation.kind == AuthoredEdges(d)[i].kind && !relation.canonical
      && Declares(ListedComponents(d), AuthoredEdges(d)[i].fromKey, relation.from)
      && Declares(ListedComponents(d), AuthoredEdges(d)[i].toKey, relation.to)
    case AtComponent(i) =>
      i < |ListedComponents(d)| && relation.kind == "composed_of" && !relation.canonical
      && d.system == Some(relation.from) && ListedComponents(d)[i].ref == Some(relation.to)
    case AtCustom(i) =>
      i < |d.customs| && relation.kind == d.customs[i].kind && relation.canonical
      && d.customs[i].from == Some(relation.from) && d.customs[i].to == Some(relation.to)
      && relation.from in EntityIds(d, |d.parts|) && relation.to in EntityIds(d, |d.parts|)
    case _ => false
  }

  lemma OutcomeIsClosed(d: Document, classes: map<string, bool>, forbidden: set<string>, i: nat)
    requires i < |Outcomes(d, classes, forbidden)| && Outcomes(d, classes, forbidden)[i].Related? && !LacksSystem(d)
    requires forall id :: id in classes <==> id in EntityIds(d, |d.parts|)
    ensures Closed(d, Outcomes(d, classes, forbidden)[i].relation)
  {
    hide EdgeOutcome, EntityIds, Outcomes, Declares;
    OutcomePlaces(d, classes, forbidden);
    var n, m := |EdgesOf(d)|, |ComponentsOf(d)|;
    if i < n {
      EdgeMeans(d.topology.value.components, EdgesOf(d)[i], i);
      EdgeIsDerived(d.topology.value.components, EdgesOf(d)[i], i);
    } else if i < n + m {
      assert Outcomes(d, classes, forbidden)[n + (i - n)] == ComponentOutcome(d.system.value, ComponentsOf(d)[i - n], i - n);
    } else {
      assert Outcomes(d, classes, forbidden)[n + m + (i - n - m)] == CustomOutcome(classes, forbidden, d.customs[i - n - m], i - n - m);
    }
  }

  lemma EdgeIsDerived(components: Components, edge: Edge, i: nat)
    requires EdgeOutcome(components, edge, i).Related?
    ensures !EdgeOutcome(components, edge, i).relation.canonical
  {
    hide IndexOf;
  }

  /**
   * Endpoint closure: every topology relationship of a result joins references of declared components,
   * every composition starts at the system, and every custom relationship joins entities of the document.
   */
  lemma RelationsAreClosed(d: Document, forbidden: set<string>, keys: Keys, relation: Relation)
    requires Interpret(d, forbidden, keys).Ok? && relation in Interpret(d, forbidden, keys).value.relations
    ensures Closed(d, relation)
  {
    hide ReadParts, Outcomes, EntityIds, Closed, Gather, Finish, Settle, DistinctBy;
    SuccessPartitions(d, forbidden, keys);
    ReadPartsMeans(d, |d.parts|);
    var known := ReadParts(d, |d.parts|).value;
    var outcomes := Outcomes(d, known.classes, forbidden);
    SameMembers(Interpret(d, forbidden, keys).value.relations, Gather(RelationsIn, outcomes), relation);
    var i := RelatedAt(outcomes, relation);
    OutcomeIsClosed(d, known.classes, forbidden, i);
  }

  lemma RelatedAt(outcomes: seq<Outcome>, relation: Relation) returns (i: nat)
    requires relation in Gather(RelationsIn, outcomes)
    ensures i < |outcomes| && outcomes[i].Related? && outcomes[i].relation == relation
  {
    GatherMembers(RelationsIn, outcomes, relation);
    var o :| o in outcomes && relation in RelationsIn(o);
    i :| 0 <= i < |outcomes| && outcomes[i] == o;
  }
}
