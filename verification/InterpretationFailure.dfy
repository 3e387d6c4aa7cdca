/** Which failure an interpretation reports: the first in the order of the document, with its reason. */
module InterpretationFailure {
  import opened Prelude
  import opened Grouping
  import opened Interpretation
  import opened InterpretationLaws

  /* ---------- the first of several faults ---------- */

  type Faults = (nat, Error) -> bool

  ghost predicate NoneBelow(faults: Faults, n: nat) {
    forall j: nat, f: Error :: j < n ==> !faults(j, f)
  }

  ghost predicate NoneAt(faults: Faults, i: nat) {
    forall f: Error :: !faults(i, f)
  }

  ghost predicate FirstBelow(faults: Faults, n: nat, e: Error) {
    exists i: nat :: i < n && faults(i, e) && NoneBelow(faults, i)
  }

  lemma FirstStep(faults: Faults, n: nat, e: Error)
    requires n > 0
    ensures FirstBelow(faults, n, e) <==> FirstBelow(faults, n - 1, e) || (NoneBelow(faults, n - 1) && faults(n - 1, e))
    ensures NoneBelow(faults, n) <==> NoneBelow(faults, n - 1) && NoneAt(faults, n - 1)
    ensures FirstBelow(faults, n, e) ==> !NoneBelow(faults, n)
  {
  }

  lemma SameFaults(faults: Faults, others: Faults, n: nat, e: Error)
    requires forall i: nat, f: Error :: i < n ==> faults(i, f) == others(i, f)
    ensures FirstBelow(faults, n, e) <==> FirstBelow(others, n, e)
    ensures NoneBelow(faults, n) <==> NoneBelow(others, n)
  {
    forall i: nat | i < n ensures NoneBelow(faults, i) <==> NoneBelow(others, i) {
    }
  }

  ghost function From(faults: Faults, n: nat): Faults {
    (i: nat, e: Error) => faults(n + i, e)
  }

  /** The first fault of a list is that of its first part or, where there is none, that of its second part. */
  lemma FirstOfParts(faults: Faults, n: nat, m: nat, e: Error)
    ensures FirstBelow(faults, n + m, e) <==> FirstBelow(faults, n, e) || (NoneBelow(faults, n) && FirstBelow(From(faults, n), m, e))
    ensures NoneBelow(faults, n + m) <==> NoneBelow(faults, n) && NoneBelow(From(faults, n), m)
  {
    forall i: nat | i <= m ensures NoneBelow(faults, n + i) <==> NoneBelow(faults, n) && NoneBelow(From(faults, n), i) {
      BelowParts(faults, n, i);
    }
    if i: nat :| i < n + m && faults(i, e) && NoneBelow(faults, i) {
      if i >= n {
        assert From(faults, n)(i - n, e) && NoneBelow(faults, n + (i - n));
      }
    }
    if i: nat :| NoneBelow(faults, n) && i < m && From(faults, n)(i, e) && NoneBelow(From(faults, n), i) {
      assert faults(n + i, e) && NoneBelow(faults, n + i);
    }
  }

  lemma BelowParts(faults: Faults, n: nat, m: nat)
    ensures NoneBelow(faults, n + m) <==> NoneBelow(faults, n) && NoneBelow(From(faults, n), m)
  {
    if NoneBelow(faults, n) && NoneBelow(From(faults, n), m) {
      forall j: nat, f: Error | j < n + m ensures !faults(j, f) {
        if j >= n {
          assert !From(faults, n)(j - n, f);
        }
      }
    }
  }

  /* ---------- the faults of a document ---------- */

  ghost predicate PartFault(d: Document, i: nat, e: Error) {
    i < |d.parts| && !RootAgain(d, d.parts[i])
    && match d.parts[i].reading
       case Refused => e == PartRefused(i)
       case Entity(id, _) => e == DuplicateEntity(id) && id in EntityIds(d, i)
       case Unclear(_) => false
  }

  ghost predicate EntityFault(d: Document, e: Error) {
    if d.root.Refused? then e == RootRefused
    else FirstBelow(PartFaults(d), |d.parts|, e)
  }

  /** The component cannot be indexed beside those before it. */
  ghost predicate KeyFault(components: seq<Component>, i: nat, e: Error) {
    i < |components|
    && match components[i]
       case Component(None, _) => e == ComponentLacksKey
       case Component(Some(_), None) => e == ComponentLacksRef
       case Component(Some(key), Some(_)) => e == DuplicateKey(key) && exists j :: 0 <= j < i && components[j].key == Some(key)
  }

  ghost predicate IndexFault(components: seq<Component>, e: Error) {
    FirstBelow(KeyFaults(components), |components|, e)
  }

  ghost predicate EdgeFault(d: Document, i: nat, e: Error) {
    d.topology.Some? && i < |d.topology.value.edges|
    && if d.topology.value.edges[i].kind !in FORWARD then e == ForbiddenEdge
       else match d.topology.value.components
            case Absent => false
            case NoList => e == NoComponents
            case Listed(items) => IndexFault(items, e)
  }

  ghost predicate ComponentFault(d: Document, i: nat, e: Error) {
    i < |ListedComponents(d)| && ListedComponents(d)[i].ref.None? && e == ComponentLacksRef
  }

  ghost predicate IsEntity(d: Document, id: Option<string>) {
    exists known :: known in EntityIds(d, |d.parts|) && id == Some(known)
  }

  ghost predicate CustomFault(d: Document, forbidden: set<string>, i: nat, e: Error) {
    i < |d.customs|
    && var c := d.customs[i];
       if c.kind in forbidden then e == ForbiddenCustom
       else if !IsEntity(d, c.from) || !IsEntity(d, c.to) then e == UngovernedEndpoints
       else if !c.qualified then e == Unqualified
       else !c.complete && e == Incomplete
  }

  /** There is no list of components without a system. */
  ghost predicate SystemFault(d: Document) {
    d.system.None? && exists items, edges :: d.topology == Some(Topology(Listed(items), edges))
  }

  ghost function PartFaults(d: Document): Faults { (i: nat, e: Error) => PartFault(d, i, e) }
  ghost function KeyFaults(components: seq<Component>): Faults { (i: nat, e: Error) => KeyFault(components, i, e) }
  ghost function EdgeFaults(d: Document): Faults { (i: nat, e: Error) => EdgeFault(d, i, e) }
  ghost function ComponentFaults(d: Document): Faults { (i: nat, e: Error) => ComponentFault(d, i, e) }
  ghost function CustomFaults(d: Document, forbidden: set<string>): Faults { (i: nat, e: Error) => CustomFault(d, forbidden, i, e) }

  /** The failure of the whole document: entities, then edges, then the system and its components, then custom relationships. */
  ghost predicate Fails(d: Document, forbidden: set<string>, e: Error) {
    EntityFault(d, e) || ((forall f :: !EntityFault(d, f)) && RelationsFail(d, forbidden, e))
  }

  ghost predicate RelationsFail(d: Document, forbidden: set<string>, e: Error) {
    var edges, components := |AuthoredEdges(d)|, |ListedComponents(d)|;
    FirstBelow(EdgeFaults(d), edges, e)
    || (NoneBelow(EdgeFaults(d), edges)
        && if SystemFault(d) then e == NoSystem
           else FirstBelow(ComponentFaults(d), components, e)
                || (NoneBelow(ComponentFaults(d), components) && FirstBelow(CustomFaults(d, forbidden), |d.customs|, e)))
  }

  /* ---------- entities ---------- */

  lemma {:induction false} ReadPartsFault(d: Document, n: nat, e: Error)
    requires n <= |d.parts|
    ensures ReadParts(d, n) == Err(e) <==> if d.root.Refused? then e == RootRefused else FirstBelow(PartFaults(d), n, e)
    ensures ReadParts(d, n).Ok? ==> NoneBelow(PartFaults(d), n)
  {
    if n > 0 {
      ReadPartsFault(d, n - 1, e);
      FirstStep(PartFaults(d), n, e);
      ReadPartsMeans(d, n - 1);
      match ReadParts(d, n - 1) {
        case Ok(known) =>
          forall f ensures ReadPart(d, known, d.parts[n - 1], n - 1) == Err(f) <==> PartFault(d, n - 1, f) {
            OnePart(d, known, n - 1, f);
          }
        case Err(f) =>
          ReadPartsFault(d, n - 1, f);
          if !d.root.Refused? {
            FirstIsFault(PartFaults(d), n - 1, f);
          }
      }
      hide PartFault, ReadPart, EntityIds, FirstBelow, NoneBelow, DistinctBy, NothingRefused;
    }
  }

  lemma FirstIsFault(faults: Faults, n: nat, e: Error)
    requires FirstBelow(faults, n, e)
    ensures !NoneBelow(faults, n)
  {
  }

  lemma OnePart(d: Document, known: Known, i: nat, e: Error)
    requires i < |d.parts| && forall id :: id in known.classes <==> id in EntityIds(d, i)
    ensures ReadPart(d, known, d.parts[i], i) == Err(e) <==> PartFault(d, i, e)
  {
    hide EntityIds;
  }

  lemma EntitiesFail(d: Document, e: Error)
    ensures ReadParts(d, |d.parts|) == Err(e) <==> EntityFault(d, e)
  {
    ReadPartsFault(d, |d.parts|, e);
    hide ReadParts, FirstBelow;
  }

  /* ---------- outcomes ---------- */

  ghost function OutcomeFaults(outcomes: seq<Outcome>): Faults {
    (i: nat, e: Error) => i < |outcomes| && outcomes[i] == Failed(e)
  }

  lemma {:induction false} SettleFault(outcomes: seq<Outcome>, start: seq<Unresolved>, e: Error)
    ensures Settle(outcomes, start) == Err(e) <==> FirstBelow(OutcomeFaults(outcomes), |outcomes|, e)
    ensures Settle(outcomes, start).Ok? <==> NoneBelow(OutcomeFaults(outcomes), |outcomes|)
  {
    if outcomes != [] {
      var n := |outcomes| - 1;
      var init := outcomes[..n];
      SettleFault(init, start, e);
      FirstStep(OutcomeFaults(outcomes), n + 1, e);
      SameFaults(OutcomeFaults(init), OutcomeFaults(outcomes), n, e);
      match Settle(init, start) {
        case Ok(_) =>
        case Err(f) =>
          SettleFault(init, start, f);
          FirstIsFault(OutcomeFaults(init), n, f);
      }
      hide FirstBelow, NoneBelow;
      if outcomes[n].Failed? {
        assert OutcomeFaults(outcomes)(n, outcomes[n].error);
      }
    }
  }

  /* ---------- keys and edges ---------- */

  lemma IndexStays(components: seq<Component>)
    requires components != []
    ensures var n := |components| - 1;
            match IndexOf(components[..n])
            case Err(e) => IndexOf(components) == Err(e)
            case Ok(index) =>
              (forall e :: IndexOf(components) == Err(e) <==> LastFault(index, components[n], e))
              && (IndexOf(components).Err? ==> LastFault(index, components[n], IndexOf(components).error))
  {
  }

  lemma IndexedKeys(components: seq<Component>)
    requires IndexOf(components).Ok?
    ensures forall key :: key in IndexOf(components).value.refs <==> exists c :: c in components && c.key == Some(key)
  {
    IndexMeans(components);
    hide IndexOf, WellKeyed, Declares;
  }

  /** What the last component adds to an index of those before it. */
  lemma IndexLater(components: seq<Component>)
    requires components != []
    ensures var n := |components| - 1;
            match IndexOf(components[..n])
            case Err(e) => IndexOf(components) == Err(e)
            case Ok(_) =>
              (forall e :: IndexOf(components) == Err(e) <==> KeyFault(components, n, e))
              && (IndexOf(components).Ok? <==> NoneAt(KeyFaults(components), n))
  {
    var n := |components| - 1;
    IndexStays(components);
    hide IndexOf, LastFault;
    if IndexOf(components[..n]).Ok? {
      var index := IndexOf(components[..n]).value;
      IndexedKeys(components[..n]);
      forall e ensures KeyFault(components, n, e) <==> LastFault(index, components[n], e) {
        LastKey(index, components, e);
      }
      hide KeyFault;
      if IndexOf(components).Err? {
        assert KeyFaults(components)(n, IndexOf(components).error);
      }
    }
  }

  lemma {:induction false} IndexFails(components: seq<Component>, e: Error)
    ensures IndexOf(components) == Err(e) <==> IndexFault(components, e)
    ensures IndexOf(components).Ok? <==> NoneBelow(KeyFaults(components), |components|)
  {
    if components != [] {
      var n := |components| - 1;
      var init := components[..n];
      IndexFails(init, e);
      IndexLater(components);
      FirstStep(KeyFaults(components), n + 1, e);
      forall i: nat, f: Error | i < n ensures KeyFaults(init)(i, f) == KeyFaults(components)(i, f) {
      }
      SameFaults(KeyFaults(init), KeyFaults(components), n, e);
      if IndexOf(init).Err? {
        IndexFails(init, IndexOf(init).error);
        FirstIsFault(KeyFaults(init), n, IndexOf(init).error);
      }
      hide IndexOf, FirstBelow, NoneBelow, NoneAt, KeyFault;
    }
  }

  ghost predicate LastFault(index: Index, last: Component, e: Error) {
    if last.key.None? then e == ComponentLacksKey
    else if last.ref.None? then e == ComponentLacksRef
    else last.key.value in index.refs && e == DuplicateKey(last.key.value)
  }

  lemma LastKey(index: Index, components: seq<Component>, e: Error)
    requires components != []
    requires var init := components[..|components| - 1]; forall key :: key in index.refs <==> exists c :: c in init && c.key == Some(key)
    ensures KeyFault(components, |components| - 1, e) <==> LastFault(index, components[|components| - 1], e)
  {
    var n := |components| - 1;
    var init, last := components[..n], components[n];
    assert forall i :: 0 <= i < n ==> init[i] == components[i];
    if last.key.Some? && last.key.value in index.refs {
      var c :| c in init && c.key == last.key;
      var j :| 0 <= j < n && init[j] == c;
    }
  }

  lemma EdgeFails(d: Document, i: nat, e: Error)
    requires i < |EdgesOf(d)|
    ensures EdgeOutcome(d.topology.value.components, EdgesOf(d)[i], i) == Failed(e) <==> EdgeFault(d, i, e)
  {
    var components := d.topology.value.components;
    match components {
      case Absent =>
      case NoList =>
      case Listed(items) => IndexFails(items, e);
    }
    hide IndexOf, IndexFault, Missing, ResolvedKeys;
  }

  lemma CustomFails(d: Document, classes: map<string, bool>, forbidden: set<string>, i: nat, e: Error)
    requires i < |d.customs| && forall id :: id in classes <==> id in EntityIds(d, |d.parts|)
    ensures CustomOutcome(classes, forbidden, d.customs[i], i) == Failed(e) <==> CustomFault(d, forbidden, i, e)
  {
    hide EntityIds;
  }

  /* ---------- the whole document ---------- */

  lemma EdgesFail(d: Document, classes: map<string, bool>, forbidden: set<string>, start: seq<Unresolved>, e: Error)
    ensures var first := Outcomes(d, classes, forbidden)[..|EdgesOf(d)|];
            && (Settle(first, start) == Err(e) <==> FirstBelow(EdgeFaults(d), |EdgesOf(d)|, e))
            && (Settle(first, start).Ok? <==> NoneBelow(EdgeFaults(d), |EdgesOf(d)|))
  {
    var n := |EdgesOf(d)|;
    var first := Outcomes(d, classes, forbidden)[..n];
    OutcomePlaces(d, classes, forbidden);
    SettleFault(first, start, e);
    hide Outcomes, EdgeOutcome, EdgeFault, FirstBelow, NoneBelow;
    forall i: nat, f: Error | i < n ensures OutcomeFaults(first)(i, f) == EdgeFaults(d)(i, f) {
      EdgeFails(d, i, f);
    }
    SameFaults(OutcomeFaults(first), EdgeFaults(d), n, e);
  }

  lemma LaterFaults(d: Document, classes: map<string, bool>, forbidden: set<string>, e: Error)
    requires d.system.None? ==> ComponentsOf(d) == []
    requires forall id :: id in classes <==> id in EntityIds(d, |d.parts|)
    ensures var n, m := |EdgesOf(d)|, |ComponentsOf(d)|;
            var faults := From(OutcomeFaults(Outcomes(d, classes, forbidden)), n);
            && (FirstBelow(faults, m, e) <==> FirstBelow(ComponentFaults(d), m, e))
            && (NoneBelow(faults, m) <==> NoneBelow(ComponentFaults(d), m))
            && (FirstBelow(From(faults, m), |d.customs|, e) <==> FirstBelow(CustomFaults(d, forbidden), |d.customs|, e))
  {
    AuthoredParts(d);
    var n, m := |EdgesOf(d)|, |ComponentsOf(d)|;
    var outcomes := Outcomes(d, classes, forbidden);
    OutcomePlaces(d, classes, forbidden);
    hide Outcomes, EdgeOutcome, CustomOutcome, CustomFault, FirstBelow, NoneBelow, EntityIds;
    var faults := From(OutcomeFaults(outcomes), n);
    forall i: nat, f: Error | i < m ensures faults(i, f) == ComponentFaults(d)(i, f) {
      assert outcomes[n + i] == ComponentOutcome(d.system.value, ComponentsOf(d)[i], i);
    }
    SameFaults(faults, ComponentFaults(d), m, e);
    forall i: nat, f: Error | i < |d.customs| ensures From(faults, m)(i, f) == CustomFaults(d, forbidden)(i, f) {
      assert outcomes[n + m + i] == CustomOutcome(classes, forbidden, d.customs[i], i);
      CustomFails(d, classes, forbidden, i, f);
    }
    SameFaults(From(faults, m), CustomFaults(d, forbidden), |d.customs|, e);
  }

  lemma SystemLacks(d: Document)
    ensures LacksSystem(d) <==> SystemFault(d)
    ensures !LacksSystem(d) && d.system.None? ==> ComponentsOf(d) == []
  {
    if LacksSystem(d) {
      assert d.topology == Some(Topology(Listed(d.topology.value.components.items), d.topology.value.edges));
    }
  }

  lemma AllFail(d: Document, classes: map<string, bool>, forbidden: set<string>, start: seq<Unresolved>, e: Error)
    requires !LacksSystem(d) && forall id :: id in classes <==> id in EntityIds(d, |d.parts|)
    requires Settle(Outcomes(d, classes, forbidden)[..|EdgesOf(d)|], start).Ok?
    ensures Settle(Outcomes(d, classes, forbidden), start) == Err(e) <==>
              FirstBelow(ComponentFaults(d), |ComponentsOf(d)|, e)
              || (NoneBelow(ComponentFaults(d), |ComponentsOf(d)|) && FirstBelow(CustomFaults(d, forbidden), |d.customs|, e))
  {
    var n, m, c := |EdgesOf(d)|, |ComponentsOf(d)|, |d.customs|;
    var outcomes := Outcomes(d, classes, forbidden);
    SystemLacks(d);
    hide Outcomes, LacksSystem, EntityIds, Settle, FirstBelow, NoneBelow;
    SettleFault(outcomes, start, e);
    SettleFault(outcomes[..n], start, e);
    SameFaults(OutcomeFaults(outcomes[..n]), OutcomeFaults(outcomes), n, e);
    var faults := OutcomeFaults(outcomes);
    FirstOfParts(faults, n, m + c, e);
    FirstOfParts(From(faults, n), m, c, e);
    if FirstBelow(faults, n, e) {
      FirstIsFault(faults, n, e);
    }
    LaterFaults(d, classes, forbidden, e);
  }

  /** The failure that an interpretation reports, exactly, for every document. */
  lemma FailsExactly(d: Document, forbidden: set<string>, keys: Keys, e: Error)
    ensures Interpret(d, forbidden, keys) == Err(e) <==> Fails(d, forbidden, e)
  {
    AuthoredParts(d);
    SystemLacks(d);
    forall f ensures ReadParts(d, |d.parts|) == Err(f) <==> EntityFault(d, f) {
      EntitiesFail(d, f);
    }
    ReadPartsMeans(d, |d.parts|);
    hide ReadParts, EntityFault, Outcomes, Finish, Settle, SystemFault, LacksSystem, EntityIds, FirstBelow, NoneBelow, DistinctBy, NothingRefused;
    if ReadParts(d, |d.parts|).Ok? {
      var known := ReadParts(d, |d.parts|).value;
      EdgesFail(d, known.classes, forbidden, known.unresolved, e);
      if FirstBelow(EdgeFaults(d), |EdgesOf(d)|, e) {
        FirstIsFault(EdgeFaults(d), |EdgesOf(d)|, e);
      }
      if Settle(Outcomes(d, known.classes, forbidden)[..|EdgesOf(d)|], known.unresolved).Ok? && !LacksSystem(d) {
        AllFail(d, known.classes, forbidden, known.unresolved, e);
      }
    }
  }
}
