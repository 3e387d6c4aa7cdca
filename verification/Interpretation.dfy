/**
 * Interpretation of one document: its entities, the relationships of its topology and composition, and its
 * custom relationships, each of which becomes a relationship or an unresolved entry, or fails the document.
 */
module Interpretation {
  import opened Prelude
  import opened Ordering
  import opened StableMerge

  /** Where in the document something stands. */
  datatype Place = AtRoot | AtPart(i: nat) | AtEdge(i: nat) | AtComponent(i: nat) | AtCustom(i: nat)

  /** How a fragment was interpreted by itself. */
  datatype Reading = Entity(id: string, custom: bool) | Unclear(code: string) | Refused

  /** A fragment of the document; its id as written, if any. */
  datatype Part = Part(isSystem: bool, writtenId: Option<Json>, reading: Reading)

  datatype Component = Component(key: Option<string>, ref: Option<string>)

  /** The list of components: not there, there but no list, or a list. */
  datatype Components = Absent | NoList | Listed(items: seq<Component>)

  datatype Edge = Edge(kind: string, fromKey: string, toKey: string)

  datatype Topology = Topology(components: Components, edges: seq<Edge>)

  /** A custom relationship; whether it is qualified and whether its record is complete is decided elsewhere. */
  datatype Custom = Custom(kind: string, from: Option<string>, to: Option<string>, qualified: bool, complete: bool)

  datatype Document = Document(
    root: Reading, writtenId: Option<Json>, parts: seq<Part>, topology: Option<Topology>, system: Option<string>,
    customs: seq<Custom>)

  datatype Relation = Relation(place: Place, kind: string, from: string, to: string, canonical: bool)

  datatype Unresolved = Unreadable(place: Place, code: string)
                      | MissingKeys(place: Place, resolved: seq<string>, missing: seq<string>)

  datatype Error =
    | RootRefused | PartRefused(i: nat) | DuplicateEntity(id: string)
    | NoComponents | ComponentLacksKey | ComponentLacksRef | DuplicateKey(key: string) | ForbiddenEdge
    | NoSystem | ForbiddenCustom | UngovernedEndpoints | Unqualified | Incomplete

  /* ---------- one relationship at a time ---------- */

  const FORWARD: set<string> := {"calls", "depends_on", "publishes_to", "reads_from", "subscribes_to", "writes_to"}

  /** What becomes of one relationship. */
  datatype Outcome = Related(relation: Relation) | Left(unresolved: Unresolved) | Failed(error: Error)

  /** The references of components by their keys, with the keys in order. */
  datatype Index = Index(refs: map<string, string>, order: seq<string>)

  function IndexOf(components: seq<Component>): Result<Index, Error> {
    if components == [] then Ok(Index(map[], [])) else
    var last := components[|components| - 1];
    match IndexOf(components[..|components| - 1])
    case Err(e) => Err(e)
    case Ok(index) =>
      if last.key.None? then Err(ComponentLacksKey)
      else if last.ref.None? then Err(ComponentLacksRef)
      else if last.key.value in index.refs then Err(DuplicateKey(last.key.value))
      else Ok(Index(index.refs[last.key.value := last.ref.value], index.order + [last.key.value]))
  }

  function TopologyIndex(components: Components): Result<Index, Error> {
    match components
    case Absent => Ok(Index(map[], []))
    case NoList => Err(NoComponents)
    case Listed(items) => IndexOf(items)
  }

  /** The keys of an edge that no component has; a key that is missing at both ends once. */
  function Missing(index: Index, edge: Edge): seq<string> {
    var first := if edge.fromKey in index.refs then [] else [edge.fromKey];
    first + if edge.toKey in index.refs || edge.toKey in first then [] else [edge.toKey]
  }

  predicate KeyResolved(index: Index, edge: Edge, key: string) {
    (key == edge.fromKey || key == edge.toKey) && key !in Missing(index, edge)
  }

  /** The keys of an edge that are there, in the order of the components. */
  function ResolvedKeys(index: Index, edge: Edge, order: seq<string>): seq<string> {
    if order == [] then [] else
    var last := order[|order| - 1];
    ResolvedKeys(index, edge, order[..|order| - 1]) + if KeyResolved(index, edge, last) then [last] else []
  }

  function EdgeOutcome(components: Components, edge: Edge, i: nat): Outcome {
    if edge.kind !in FORWARD then Failed(ForbiddenEdge) else
    match TopologyIndex(components)
    case Err(e) => Failed(e)
    case Ok(index) =>
      if Missing(index, edge) != [] then
        Left(MissingKeys(AtEdge(i), ResolvedKeys(index, edge, index.order), Missing(index, edge)))
      else Related(Relation(AtEdge(i), edge.kind, index.refs[edge.fromKey], index.refs[edge.toKey], false))
  }

  function ComponentOutcome(system: string, component: Component, i: nat): Outcome {
    match component.ref
    case None => Failed(ComponentLacksRef)
    case Some(ref) => Related(Relation(AtComponent(i), "composed_of", system, ref, false))
  }

  /** Both endpoints are written and classified; only entities of the document are. */
  predicate Governed(classes: map<string, bool>, c: Custom) {
    c.from.Some? && c.to.Some? && c.from.value in classes && c.to.value in classes
  }

  function CustomOutcome(classes: map<string, bool>, forbidden: set<string>, c: Custom, i: nat): Outcome {
    if c.kind in forbidden then Failed(ForbiddenCustom)
    else if !Governed(classes, c) then Failed(UngovernedEndpoints)
    else if !c.qualified then Failed(Unqualified)
    else if !c.complete then Failed(Incomplete)
    else Related(Relation(AtCustom(i), c.kind, c.from.value, c.to.value, true))
  }

  /** The index as the program builds it. */
  method BuildIndex(components: Components) returns (r: Result<Index, Error>)
    ensures r == TopologyIndex(components)
  {
    match components {
      case Absent => return Ok(Index(map[], []));
      case NoList => return Err(NoComponents);
      case Listed(items) =>
        var refs: map<string, string> := map[];
        var order: seq<string> := [];
        for i := 0 to |items|
          invariant IndexOf(items[..i]) == Ok(Index(refs, order))
        {
          IndexStep(items, i);
          if items[i].key.None? {
            return Err(ComponentLacksKey);
          }
          if items[i].ref.None? {
            return Err(ComponentLacksRef);
          }
          var key := items[i].key.value;
          if key in refs {
            return Err(DuplicateKey(key));
          }
          refs := refs[key := items[i].ref.value];
          order := order + [key];
        }
        assert items[..|items|] == items;
        return Ok(Index(refs, order));
    }
  }

  lemma IndexStep(items: seq<Component>, i: nat)
    requires i < |items|
    ensures items[..i + 1][..i] == items[..i] && items[..i + 1][i] == items[i]
    ensures IndexOf(items[..i + 1]).Err? ==> IndexOf(items) == IndexOf(items[..i + 1])
  {
    assert items[..i + 1][..i] == items[..i];
    if IndexOf(items[..i + 1]).Err? {
      IndexStaysBroken(items, i + 1);
    }
  }

  lemma {:induction false} IndexStaysBroken(items: seq<Component>, i: nat)
    requires i <= |items| && IndexOf(items[..i]).Err?
    ensures IndexOf(items) == IndexOf(items[..i])
  {
    if i < |items| {
      var init := items[..|items| - 1];
      assert init[..i] == items[..i];
      IndexStaysBroken(init, i);
    } else {
      assert items[..i] == items;
    }
  }

  /* ---------- entities ---------- */

  /** The entities read so far: their classifications, their ids in order, and what was unclear. */
  datatype Known = Known(classes: map<string, bool>, ids: seq<string>, unresolved: seq<Unresolved>)

  function ReadRoot(d: Document): Result<Known, Error> {
    match d.root
    case Entity(id, custom) => Ok(Known(map[id := custom], [id], []))
    case Unclear(code) => Ok(Known(map[], [], [Unreadable(AtRoot, code)]))
    case Refused => Err(RootRefused)
  }

  /** The system descriptor that repeats the root's id is no entity of its own. */
  predicate Skipped(d: Document, part: Part) {
    part.isSystem && part.writtenId == d.writtenId
  }

  function ReadPart(d: Document, known: Known, part: Part, i: nat): Result<Known, Error> {
    if Skipped(d, part) then Ok(known) else
    match part.reading
    case Entity(id, custom) =>
      if id in known.classes then Err(DuplicateEntity(id))
      else Ok(Known(known.classes[id := custom], known.ids + [id], known.unresolved))
    case Unclear(code) => Ok(known.(unresolved := known.unresolved + [Unreadable(AtPart(i), code)]))
    case Refused => Err(PartRefused(i))
  }

  function ReadParts(d: Document, n: nat): Result<Known, Error>
    requires n <= |d.parts|
  {
    if n == 0 then ReadRoot(d) else
    match ReadParts(d, n - 1)
    case Err(e) => Err(e)
    case Ok(known) => ReadPart(d, known, d.parts[n - 1], n - 1)
  }

  /* ---------- relationships ---------- */

  function EdgesOf(d: Document): seq<Edge> {
    if d.topology.Some? then d.topology.value.edges else []
  }

  function ComponentsOf(d: Document): seq<Component> {
    if d.topology.Some? && d.topology.value.components.Listed? then d.topology.value.components.items else []
  }

  /** The outcomes in the order of the document: edges, components, custom relationships. */
  function Outcomes(d: Document, classes: map<string, bool>, forbidden: set<string>): (outcomes: seq<Outcome>)
    ensures |outcomes| == |EdgesOf(d)| + |ComponentsOf(d)| + |d.customs|
  {
    seq(|EdgesOf(d)|, i requires 0 <= i < |EdgesOf(d)| => EdgeOutcome(d.topology.value.components, EdgesOf(d)[i], i))
    + seq(|ComponentsOf(d)|, i requires 0 <= i < |ComponentsOf(d)| =>
        if d.system.None? then Failed(NoSystem) else ComponentOutcome(d.system.value, ComponentsOf(d)[i], i))
    + seq(|d.customs|, i requires 0 <= i < |d.customs| => CustomOutcome(classes, forbidden, d.customs[i], i))
  }

  datatype Settled = Settled(relations: seq<Relation>, unresolved: seq<Unresolved>)

  /** The first failure, or every relation and unresolved entry in order. */
  function Settle(outcomes: seq<Outcome>, unresolved: seq<Unresolved>): Result<Settled, Error> {
    if outcomes == [] then Ok(Settled([], unresolved)) else
    var last := outcomes[|outcomes| - 1];
    match Settle(outcomes[..|outcomes| - 1], unresolved)
    case Err(e) => Err(e)
    case Ok(s) =>
      match last
      case Related(relation) => Ok(s.(relations := s.relations + [relation]))
      case Left(entry) => Ok(s.(unresolved := s.unresolved + [entry]))
      case Failed(e) => Err(e)
  }

  /** A list of components needs a system, even when it is empty. */
  predicate LacksSystem(d: Document) {
    d.topology.Some? && d.topology.value.components.Listed? && d.system.None?
  }

  datatype Interpreted = Interpreted(ids: seq<string>, relations: seq<Relation>, unresolved: seq<Unresolved>)

  /** How the finished lists are sorted. */
  datatype Keys = Keys(relation: Relation -> Key, unresolved: Unresolved -> Key)

  function IdKey(id: string): Key { (id, "") }

  function Finish(ids: seq<string>, s: Settled, keys: Keys): Interpreted {
    Interpreted(Sort(Order(IdKey), ids), Sort(Order(keys.relation), s.relations), Sort(Order(keys.unresolved), s.unresolved))
  }

  /** The interpretation of a document; the first failure in document order is the one reported. */
  function Interpret(d: Document, forbidden: set<string>, keys: Keys): Result<Interpreted, Error> {
    match ReadParts(d, |d.parts|)
    case Err(e) => Err(e)
    case Ok(known) =>
      var outcomes, n := Outcomes(d, known.classes, forbidden), |EdgesOf(d)|;
      match Settle(outcomes[..n], known.unresolved)
      case Err(e) => Err(e)
      case Ok(_) =>
        if LacksSystem(d) then Err(NoSystem) else
        match Settle(outcomes, known.unresolved)
        case Err(e) => Err(e)
        case Ok(s) => Ok(Finish(known.ids, s, keys))
  }

  /* ---------- the interpreter ---------- */

  class Interpreter {
    const document: Document
    var classes: map<string, bool>
    var ids: seq<string>
    var relations: seq<Relation>
    var unresolved: seq<Unresolved>

    constructor (document: Document)
      ensures this.document == document && Empty()
    {
      this.document := document;
      classes, ids, relations, unresolved := map[], [], [], [];
    }

    ghost predicate Empty()
      reads this
    {
      classes == map[] && ids == [] && relations == [] && unresolved == []
    }

    function State(): Known
      reads this
    {
      Known(classes, ids, unresolved)
    }

    method ReadEntities() returns (failure: Option<Error>)
      requires Empty()
      modifies this
      ensures match ReadParts(document, |document.parts|)
              case Err(e) => failure == Some(e)
              case Ok(known) => failure == None && State() == known && relations == []
    {
      match document.root {
        case Refused =>
          ReadPartsFail(document, 0);
          return Some(RootRefused);
        case Entity(id, custom) => classes, ids := map[id := custom], [id];
        case Unclear(code) => unresolved := [Unreadable(AtRoot, code)];
      }
      for i := 0 to |document.parts|
        invariant relations == [] && ReadParts(document, i) == Ok(State())
      {
        var part := document.parts[i];
        if Skipped(document, part) {
          continue;
        }
        match part.reading {
          case Entity(id, custom) =>
            if id in classes {
              ReadPartsFail(document, i + 1);
              return Some(DuplicateEntity(id));
            }
            classes := classes[id := custom];
            ids := ids + [id];
          case Unclear(code) => unresolved := unresolved + [Unreadable(AtPart(i), code)];
          case Refused =>
            ReadPartsFail(document, i + 1);
            return Some(PartRefused(i));
        }
      }
      return None;
    }

    /** Records an outcome. */
    method Record(outcome: Outcome, ghost outcomes: seq<Outcome>, ghost i: nat, ghost start: seq<Unresolved>)
      returns (failure: Option<Error>)
      requires i < |outcomes| && outcomes[i] == outcome && Settle(outcomes[..i], start) == Ok(Settled(relations, unresolved))
      modifies this`relations, this`unresolved
      ensures failure.None? ==> Settle(outcomes[..i + 1], start) == Ok(Settled(relations, unresolved))
      ensures failure.Some? ==> Settle(outcomes[..i + 1], start) == Err(failure.value)
    {
      assert outcomes[..i + 1][..i] == outcomes[..i];
      match outcome {
        case Related(relation) => relations := relations + [relation];
        case Left(entry) => unresolved := unresolved + [entry];
        case Failed(e) => return Some(e);
      }
      return None;
    }
  }

  lemma {:induction false} ReadPartsFail(d: Document, n: nat)
    requires n <= |d.parts| && ReadParts(d, n).Err?
    ensures ReadParts(d, |d.parts|) == ReadParts(d, n)
    decreases |d.parts| - n
  {
    if n < |d.parts| {
      ReadPartsFail(d, n + 1);
    }
  }

  lemma {:induction false} SettleFails(outcomes: seq<Outcome>, n: nat, start: seq<Unresolved>)
    requires n <= |outcomes| && Settle(outcomes[..n], start).Err?
    ensures Settle(outcomes, start) == Settle(outcomes[..n], start)
  {
    if n == |outcomes| {
      assert outcomes[..n] == outcomes;
    } else {
      var init := outcomes[..|outcomes| - 1];
      assert init[..n] == outcomes[..n];
      SettleFails(init, n, start);
    }
  }

  lemma OutcomePlaces(d: Document, classes: map<string, bool>, forbidden: set<string>)
    ensures var outcomes, n := Outcomes(d, classes, forbidden), |EdgesOf(d)|;
            && (forall i :: 0 <= i < n ==> outcomes[i] == EdgeOutcome(d.topology.value.components, EdgesOf(d)[i], i))
            && (forall i :: 0 <= i < |ComponentsOf(d)| && d.system.Some? ==>
                  outcomes[n + i] == ComponentOutcome(d.system.value, ComponentsOf(d)[i], i))
            && (forall i :: 0 <= i < |d.customs| ==>
                  outcomes[n + |ComponentsOf(d)| + i] == CustomOutcome(classes, forbidden, d.customs[i], i))
  {
    hide EdgeOutcome, ComponentOutcome, CustomOutcome;
  }

  method InterpretDocument(d: Document, forbidden: set<string>, keys: Keys) returns (r: Result<Interpreted, Error>)
    ensures r == Interpret(d, forbidden, keys)
  {
    hide EdgeOutcome, ComponentOutcome, CustomOutcome, ReadParts, Sort, Settle, Outcomes, Finish;
    var run := new Interpreter(d);
    var failure := run.ReadEntities();
    if failure.Some? {
      return Err(failure.value);
    }
    ghost var known := run.State();
    ghost var outcomes, start := Outcomes(d, run.classes, forbidden), run.unresolved;
    NothingSettled(outcomes, start);
    OutcomePlaces(d, run.classes, forbidden);
    var edges, components, customs := EdgesOf(d), ComponentsOf(d), d.customs;
    for i := 0 to |edges|
      invariant run.document == d && run.classes == known.classes && run.ids == known.ids
      invariant Settle(outcomes[..i], start) == Ok(Settled(run.relations, run.unresolved))
    {
      var outcome := RelateEdge(d.topology.value.components, edges[i], i);
      failure := run.Record(outcome, outcomes, i, start);
      if failure.Some? {
        ghost var first := outcomes[..|edges|];
        assert first[..i + 1] == outcomes[..i + 1];
        SettleFails(first, i + 1, start);
        return Err(failure.value);
      }
    }
    if LacksSystem(d) {
      return Err(NoSystem);
    }
    for i := 0 to |components|
      invariant run.document == d && run.classes == known.classes && run.ids == known.ids
      invariant Settle(outcomes[..|edges| + i], start) == Ok(Settled(run.relations, run.unresolved))
    {
      failure := run.Record(ComponentOutcome(d.system.value, components[i], i), outcomes, |edges| + i, start);
      if failure.Some? {
        SettleFails(outcomes, |edges| + i + 1, start);
        return Err(failure.value);
      }
    }
    var n := |edges| + |components|;
    for i := 0 to |customs|
      invariant run.document == d && run.classes == known.classes && run.ids == known.ids
      invariant Settle(outcomes[..n + i], start) == Ok(Settled(run.relations, run.unresolved))
    {
      failure := run.Record(CustomOutcome(run.classes, forbidden, customs[i], i), outcomes, n + i, start);
      if failure.Some? {
        SettleFails(outcomes, n + i + 1, start);
        return Err(failure.value);
      }
    }
    assert outcomes[..n + |customs|] == outcomes;
    return Ok(Finish(run.ids, Settled(run.relations, run.unresolved), keys));
  }

  lemma NothingSettled(outcomes: seq<Outcome>, start: seq<Unresolved>)
    ensures Settle(outcomes[..0], start) == Ok(Settled([], start))
  {
  }

  /** One edge: the index is built anew, and missing keys are collected in a loop. */
  method RelateEdge(components: Components, edge: Edge, i: nat) returns (outcome: Outcome)
    ensures outcome == EdgeOutcome(components, edge, i)
  {
    if edge.kind !in FORWARD {
      return Failed(ForbiddenEdge);
    }
    var built := BuildIndex(components);
    if built.Err? {
      return Failed(built.error);
    }
    var index := built.value;
    var missing: seq<string> := [];
    var ends := [edge.fromKey, edge.toKey];
    for j := 0 to 2
      invariant missing == if j == 0 then [] else if j == 1 then (if edge.fromKey in index.refs then [] else [edge.fromKey])
                           else Missing(index, edge)
    {
      if ends[j] !in index.refs && ends[j] !in missing {
        missing := missing + [ends[j]];
      }
    }
    if missing != [] {
      var resolved: seq<string> := [];
      for j := 0 to |index.order|
        invariant resolved == ResolvedKeys(index, edge, index.order[..j])
      {
        assert index.order[..j + 1][..j] == index.order[..j];
        var key := index.order[j];
        if (key == edge.fromKey || key == edge.toKey) && key !in missing {
          resolved := resolved + [key];
        }
      }
      assert index.order[..|index.order|] == index.order;
      return Left(MissingKeys(AtEdge(i), resolved, missing));
    }
    return Related(Relation(AtEdge(i), edge.kind, index.refs[edge.fromKey], index.refs[edge.toKey], false));
  }
}
