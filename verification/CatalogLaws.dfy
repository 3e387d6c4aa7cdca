/**
 * What the schema catalog finds, said without its walks: where a pointer and a reference lead, what a chain
 * of references ends in, which variant governs a value, and which members a schema lays out.
 */
module CatalogLaws {
  import opened Prelude
  import opened Strings
  import opened Pointers
  import opened CanonicalText
  import opened Grouping
  import StableMerge
  import opened SchemaCatalog

  /* ---------- pointers ---------- */

  /** The first member with the name. */
  ghost predicate FirstMember(entries: seq<(string, OrderedValue)>, name: string, child: OrderedValue) {
    exists k :: 0 <= k < |entries| && entries[k] == (name, child) && forall j :: 0 <= j < k ==> entries[j].0 != name
  }

  /** The number as an index is written: a plus sign may stand before its digits. */
  ghost predicate WrittenIndex(text: string, i: nat) {
    exists digits: string :: digits != "" && AllDigits(digits) && DigitsValue(digits) == i
                             && (text == digits || text == "+" + digits)
  }

  /** `child` is the member or the item of `value` that `name` stands for. */
  ghost predicate Holds(value: OrderedValue, name: string, child: OrderedValue) {
    (value.OObject? && FirstMember(value.entries, name, child))
    || (value.OArray? && exists i :: 0 <= i < |value.items| && WrittenIndex(name, i) && child == value.items[i])
  }

  ghost predicate Nested(parts: seq<OrderedValue>, names: seq<string>) {
    |parts| == |names| + 1 && forall i :: 0 <= i < |names| ==> Holds(parts[i], names[i], parts[i + 1])
  }

  ghost predicate StandsAt(root: OrderedValue, names: seq<string>, part: OrderedValue) {
    exists parts :: Nested(parts, names) && parts[0] == root && parts[|names|] == part
  }

  function AllEscaped(names: seq<string>): (raws: seq<string>)
    ensures |raws| == |names| && forall i :: 0 <= i < |names| ==> raws[i] == Escaped(names[i])
  {
    seq(|names|, i requires 0 <= i < |names| => Escaped(names[i]))
  }

  /** The pointer spells the names of a path to the part. */
  ghost predicate Reaches(root: OrderedValue, pointer: string, part: OrderedValue) {
    exists names :: pointer == PointerText(AllEscaped(names)) && StandsAt(root, names, part)
  }

  lemma {:induction false} FirstNamedMeans(entries: seq<(string, OrderedValue)>, name: string, child: OrderedValue)
    ensures FirstNamed(entries, name) == Some(child) <==> FirstMember(entries, name, child)
  {
    if entries != [] {
      var rest := entries[1..];
      FirstNamedMeans(rest, name, child);
      if entries[0].0 == name {
        assert entries[0] == (name, entries[0].1);
      } else {
        if FirstMember(rest, name, child) {
          var k :| 0 <= k < |rest| && rest[k] == (name, child) && forall j :: 0 <= j < k ==> rest[j].0 != name;
          assert entries[k + 1] == (name, child);
          assert forall j :: 0 < j < k + 1 ==> entries[j] == rest[j - 1];
        }
        if FirstMember(entries, name, child) {
          var k :| 0 <= k < |entries| && entries[k] == (name, child) && forall j :: 0 <= j < k ==> entries[j].0 != name;
          assert rest[k - 1] == (name, child);
          assert forall j :: 0 <= j < k - 1 ==> rest[j] == entries[j + 1];
        }
      }
    }
  }

  lemma IndexMeans(text: string, i: nat)
    ensures ParseIndex(text) == Some(i) <==> WrittenIndex(text, i)
  {
    if WrittenIndex(text, i) {
      var digits: string :| digits != "" && AllDigits(digits) && DigitsValue(digits) == i && (text == digits || text == "+" + digits);
      assert digits[0] != '+' by { assert IsDigit(digits[0]); }
      assert text == "+" + digits ==> text[1..] == digits;
    }
    if ParseIndex(text) == Some(i) {
      assert StartsWith(text, "+") ==> text == "+" + text[1..];
    }
  }

  lemma DescendMeans(value: OrderedValue, name: string, child: OrderedValue)
    ensures Descend(value, name) == Ok(child) <==> Holds(value, name, child)
  {
    match value
    case OObject(entries) => FirstNamedMeans(entries, name, child);
    case OArray(items) =>
      forall i: nat ensures ParseIndex(name) == Some(i) <==> WrittenIndex(name, i) {
        IndexMeans(name, i);
      }
    case _ =>
  }

  /** A segment with valid escapes is the spelling of the name that it is read as, and of no other. */
  lemma {:induction false} EscapesAreSpellings(raw: string, name: string)
    requires '/' !in raw
    ensures ValidEscapes(raw) && Unescaped(raw) == name <==> raw == Escaped(name)
    decreases |raw|
  {
    EscapedReads(name);
    if raw == Escaped(name) {
      EscapedIsValid(name);
    }
    if ValidEscapes(raw) {
      SpellsItself(raw);
    }
  }

  lemma {:induction false} EscapedIsValid(name: string)
    ensures ValidEscapes(Escaped(name))
  {
    if name != "" {
      EscapedIsValid(name[1..]);
      var all, rest := Escaped(name), Escaped(name[1..]);
      if name[0] == '~' || name[0] == '/' {
        assert all[2..] == rest;
      } else {
        assert all[1..] == rest;
      }
    }
  }

  lemma {:induction false} SpellsItself(raw: string)
    requires '/' !in raw && ValidEscapes(raw)
    ensures Escaped(Unescaped(raw)) == raw
    decreases |raw|
  {
    if raw != "" {
      if raw[0] == '~' {
        SpellsItself(raw[2..]);
        assert raw == raw[..2] + raw[2..];
        assert raw[..2] == "~0" || raw[..2] == "~1";
        var name := Unescaped(raw);
        assert name[1..] == Unescaped(raw[2..]);
      } else {
        SpellsItself(raw[1..]);
        assert raw == raw[..1] + raw[1..];
        var name := Unescaped(raw);
        assert name[1..] == Unescaped(raw[1..]);
      }
    }
  }

  lemma StandsBelow(root: OrderedValue, names: seq<string>, part: OrderedValue)
    requires names != []
    ensures StandsAt(root, names, part) <==> exists child :: Holds(root, names[0], child) && StandsAt(child, names[1..], part)
  {
    hide Holds;
    var n := |names|;
    if StandsAt(root, names, part) {
      var parts :| Nested(parts, names) && parts[0] == root && parts[n] == part;
      assert Nested(parts[1..], names[1..]);
      assert StandsAt(parts[1], names[1..], part);
    }
    if child :| Holds(root, names[0], child) && StandsAt(child, names[1..], part) {
      var parts :| Nested(parts, names[1..]) && parts[0] == child && parts[n - 1] == part;
      assert Nested([root] + parts, names);
    }
  }

  ghost predicate Spelled(raws: seq<string>, root: OrderedValue, part: OrderedValue) {
    exists names :: raws == AllEscaped(names) && StandsAt(root, names, part)
  }

  lemma SpelledBelow(raws: seq<string>, root: OrderedValue, part: OrderedValue, name: string)
    requires raws != []
    requires forall other :: raws[0] == Escaped(other) ==> other == name
    ensures Spelled(raws, root, part) <==>
              raws[0] == Escaped(name) && exists child :: Holds(root, name, child) && Spelled(raws[1..], child, part)
  {
    hide StandsAt, Holds, Escaped;
    if names :| raws == AllEscaped(names) && StandsAt(root, names, part) {
      StandsBelow(root, names, part);
      assert names[0] == name && raws[1..] == AllEscaped(names[1..]);
      var child :| Holds(root, names[0], child) && StandsAt(child, names[1..], part);
      assert Spelled(raws[1..], child, part);
    }
    if raws[0] == Escaped(name) {
      forall child | Holds(root, name, child) && Spelled(raws[1..], child, part) ensures Spelled(raws, root, part) {
        var rest: seq<string> :| raws[1..] == AllEscaped(rest) && StandsAt(child, rest, part);
        var names := [name] + rest;
        assert names[1..] == rest && names[0] == name;
        StandsBelow(root, names, part);
        assert raws == AllEscaped(names);
      }
    }
  }

  lemma NoSegments(root: OrderedValue, part: OrderedValue)
    ensures Spelled([], root, part) <==> root == part
  {
    if root == part {
      assert Nested([root], []);
      assert [] == AllEscaped([]);
    }
  }

  lemma SegmentMeans(raw: string)
    requires '/' !in raw
    ensures forall other :: raw == Escaped(other) ==> other == SegmentName(raw)
    ensures ValidEscapes(raw) <==> raw == Escaped(SegmentName(raw))
  {
    SegmentSpells(raw);
    forall other ensures ValidEscapes(raw) && Unescaped(raw) == other <==> raw == Escaped(other) {
      EscapesAreSpellings(raw, other);
    }
  }

  /** The walk over segments that have no slash finds what stands under the names they spell. */
  lemma {:induction false} WalkMeans(root: OrderedValue, raws: seq<string>, part: OrderedValue)
    requires Plain(raws)
    ensures Walk(root, raws) == Ok(part) <==> Spelled(raws, root, part)
    decreases |raws|
  {
    hide Spelled, Escaped, SegmentName, Descend, ValidEscapes, Holds;
    if raws == [] {
      NoSegments(root, part);
    } else {
      var name := SegmentName(raws[0]);
      SegmentMeans(raws[0]);
      SpelledBelow(raws, root, part, name);
      assert forall i :: 0 <= i < |raws| - 1 ==> raws[1..][i] == raws[i + 1];
      forall child ensures Walk(child, raws[1..]) == Ok(part) <==> Spelled(raws[1..], child, part) {
        WalkMeans(child, raws[1..], part);
      }
      forall child ensures Descend(root, name) == Ok(child) <==> Holds(root, name, child) {
        DescendMeans(root, name, child);
      }
      WalkOneStep(root, raws, part);
    }
  }

  lemma WalkOneStep(root: OrderedValue, raws: seq<string>, part: OrderedValue)
    requires raws != []
    ensures Walk(root, raws) == Ok(part) <==>
              ValidEscapes(raws[0])
              && exists child :: Descend(root, SegmentName(raws[0])) == Ok(child) && Walk(child, raws[1..]) == Ok(part)
  {
    hide ValidEscapes, Descend, SegmentName;
  }

  lemma {:induction false} SpellingsArePlain(names: seq<string>)
    ensures Plain(AllEscaped(names))
  {
    forall i | 0 <= i < |names| ensures '/' !in AllEscaped(names)[i] {
      EscapedReads(names[i]);
    }
  }

  /** Pointers, exactly: a pointer leads to a part if and only if it spells the names of a path to it. */
  lemma PointerMeans(root: Schema, pointer: string, found: Schema)
    ensures Pointer(root, pointer) == Ok(found) <==> found.resource == root.resource && Reaches(root.value, pointer, found.value)
  {
    hide StandsAt, Walk, Split;
    var part := found.value;
    if pointer != "" && pointer[0] == '/' {
      SplitIsPlain(pointer[1..]);
      assert pointer == "/" + pointer[1..];
      WalkMeans(root.value, Split(pointer[1..], '/'), part);
    }
    if Pointer(root, pointer) == Ok(found) && pointer == "" {
      NothingDeep(root.value);
      assert pointer == PointerText(AllEscaped([]));
    }
    if Reaches(root.value, pointer, part) {
      var names :| pointer == PointerText(AllEscaped(names)) && StandsAt(root.value, names, part);
      SpellingsArePlain(names);
      if names == [] {
        OnlyItself(root.value, part);
      } else {
        SplitPointer(AllEscaped(names));
      }
    }
  }

  lemma NothingDeep(root: OrderedValue)
    ensures StandsAt(root, [], root)
  {
    assert Nested([root], []);
  }

  lemma OnlyItself(root: OrderedValue, part: OrderedValue)
    requires StandsAt(root, [], part)
    ensures part == root
  {
  }

  /* ---------- references ---------- */

  /** The resource that a reference names, read inside `current`. */
  ghost predicate Named(current: string, resource: string, key: string) {
    if resource == "" then key == current
    else if EndsWith(resource, ".json") then exists name :: Stem(resource, name) && key == "authoring/1.7/schema/" + name
    else key == resource
  }

  /** The reference, read inside `current`, leads to this schema. */
  ghost predicate Leads(catalog: Catalog, current: string, reference: string, found: Schema) {
    exists resource, pointer ::
      Parts(reference, resource, pointer) && Named(current, resource, found.resource)
      && found.resource in catalog && Reaches(catalog[found.resource], pointer, found.value)
  }

  lemma ReferenceMeans(catalog: Catalog, current: string, reference: string, found: Schema)
    ensures Reference(catalog, current, reference) == Ok(found) <==> Leads(catalog, current, reference, found)
  {
    var resource, pointer := ResourceOf(reference), FragmentOf(reference);
    forall r, p ensures Parts(reference, r, p) <==> r == resource && p == pointer {
      PartsOf(reference, r, p);
    }
    StemMeans(resource, TrimEnd(resource, ".json"));
    forall name ensures Stem(resource, name) <==> name == TrimEnd(resource, ".json") {
      StemMeans(resource, name);
    }
    assert Parts(reference, resource, pointer);
    if found.resource in catalog {
      PointerMeans(Schema(found.resource, catalog[found.resource]), pointer, found);
    }
    hide Parts, Stem, Pointer, Reaches, TrimEnd;
    var key := if resource == "" then current
               else if EndsWith(resource, ".json") then "authoring/1.7/schema/" + TrimEnd(resource, ".json")
               else resource;
    assert Named(current, resource, found.resource) <==> found.resource == key by {
      if EndsWith(resource, ".json") { assert Stem(resource, TrimEnd(resource, ".json")); }
    }
    assert Reference(catalog, current, reference).Ok? ==>
        key in catalog && Reference(catalog, current, reference) == Pointer(Schema(key, catalog[key]), pointer);
    PointerKeepsResource(catalog, key, pointer);
  }

  lemma PointerKeepsResource(catalog: Catalog, key: string, pointer: string)
    ensures key in catalog && Pointer(Schema(key, catalog[key]), pointer).Ok? ==>
              Pointer(Schema(key, catalog[key]), pointer).value.resource == key
  {
    hide Walk;
  }

  /* ---------- chains of references ---------- */

  /** The schema is a reference to the other one. */
  ghost predicate Link(catalog: Catalog, schema: Schema, next: Schema) {
    exists reference :: schema.value.GetString("$ref") == Some(reference) && Leads(catalog, schema.resource, reference, next)
  }

  /** Each schema but the last is a reference to the next. */
  ghost predicate Chain(catalog: Catalog, schemas: seq<Schema>) {
    forall i :: 0 <= i < |schemas| - 1 ==> Link(catalog, schemas[i], schemas[i + 1])
  }

  /** Fewer than `hops` references lead from the schema to this one, which is none itself. */
  ghost predicate EndsIn(catalog: Catalog, schema: Schema, end: Schema, hops: nat) {
    exists schemas :: 0 < |schemas| <= hops && Chain(catalog, schemas) && schemas[0] == schema
                      && schemas[|schemas| - 1] == end && end.value.GetString("$ref").None?
  }

  lemma ChainGrows(catalog: Catalog, schema: Schema, schemas: seq<Schema>)
    requires schemas != [] && Chain(catalog, schemas) && Link(catalog, schema, schemas[0])
    ensures Chain(catalog, [schema] + schemas)
  {
    hide Link;
    var all := [schema] + schemas;
    forall i | 0 <= i < |all| - 1 ensures Link(catalog, all[i], all[i + 1]) {
      if i > 0 {
        assert Link(catalog, schemas[i - 1], schemas[i - 1 + 1]);
      }
    }
  }

  lemma ChainShrinks(catalog: Catalog, schemas: seq<Schema>)
    requires |schemas| > 1 && Chain(catalog, schemas)
    ensures Chain(catalog, schemas[1..]) && Link(catalog, schemas[0], schemas[1])
  {
    hide Link;
    var rest := schemas[1..];
    forall i | 0 <= i < |rest| - 1 ensures Link(catalog, rest[i], rest[i + 1]) {
      assert Link(catalog, schemas[i + 1], schemas[i + 1 + 1]);
    }
    assert Link(catalog, schemas[0], schemas[0 + 1]);
  }

  /** Dereferencing, exactly: the end of a chain of references that is not too long. */
  lemma {:induction false} DereferenceMeans(catalog: Catalog, schema: Schema, end: Schema, hops: nat)
    ensures Dereference(catalog, schema, hops) == Ok(end) <==> EndsIn(catalog, schema, end, hops)
    decreases hops
  {
    hide Leads, Chain, Reference;
    if hops > 0 {
      match schema.value.GetString("$ref")
      case None =>
        SingleChain(catalog, schema);
        if EndsIn(catalog, schema, end, hops) {
          var schemas := ChainTo(catalog, schema, end, hops);
          if |schemas| > 1 {
            ChainShrinks(catalog, schemas);
          }
        }
      case Some(reference) =>
        if Dereference(catalog, schema, hops) == Ok(end) {
          var next := Reference(catalog, schema.resource, reference).value;
          ReferenceMeans(catalog, schema.resource, reference, next);
          DereferenceMeans(catalog, next, end, hops - 1);
          var schemas := ChainTo(catalog, next, end, hops - 1);
          ChainGrows(catalog, schema, schemas);
          assert ([schema] + schemas)[0] == schema;
        }
        if EndsIn(catalog, schema, end, hops) {
          var schemas := ChainTo(catalog, schema, end, hops);
          ChainShrinks(catalog, schemas);
          ReferenceMeans(catalog, schema.resource, reference, schemas[1]);
          assert EndsIn(catalog, schemas[1], end, hops - 1) by {
            assert schemas[1..][0] == schemas[1];
          }
          DereferenceMeans(catalog, schemas[1], end, hops - 1);
        }
    }
  }

  lemma ChainTo(catalog: Catalog, schema: Schema, end: Schema, hops: nat) returns (schemas: seq<Schema>)
    requires EndsIn(catalog, schema, end, hops)
    ensures 0 < |schemas| <= hops && Chain(catalog, schemas) && schemas[0] == schema
    ensures schemas[|schemas| - 1] == end && end.value.GetString("$ref").None?
  {
    hide Chain;
    schemas :| 0 < |schemas| <= hops && Chain(catalog, schemas) && schemas[0] == schema
               && schemas[|schemas| - 1] == end && end.value.GetString("$ref").None?;
  }

  lemma SingleChain(catalog: Catalog, schema: Schema)
    ensures Chain(catalog, [schema])
  {
  }

  /** What a schema refers to, at the program's limit of hops. */
  ghost predicate RefersTo(catalog: Catalog, schema: Schema, end: Schema) {
    EndsIn(catalog, schema, end, 32)
  }

  /* ---------- the variant that governs a value ---------- */

  ghost predicate OfKind(value: Json, kind: string) {
    (value.Null? && kind == "null") || (value.Bool? && kind == "boolean") || (value.Str? && kind == "string")
    || (value.Number? && kind in {"integer", "number"}) || (value.Obj? && kind == "object") || (value.Arr? && kind == "array")
  }

  /** The list of variants: that of `oneOf`, or where that is no list, that of `anyOf`. */
  ghost predicate Offers(schema: Schema, variants: seq<OrderedValue>) {
    schema.value.Get("oneOf") == Some(OArray(variants))
    || (!(exists items :: schema.value.Get("oneOf") == Some(OArray(items))) && schema.value.Get("anyOf") == Some(OArray(variants)))
  }

  /** A schema as far as its type tells; without one its variants must settle the value. */
  ghost predicate Suits(catalog: Catalog, schema: Schema, value: Json, fuel: nat) {
    match schema.value.Get("type")
    case Some(OArray(kinds)) => exists kind :: OString(kind) in kinds && OfKind(value, kind)
    case Some(OString(kind)) => OfKind(value, kind)
    case _ =>
      (schema.value.Get("oneOf").None? && schema.value.Get("anyOf").None?)
      || exists chosen :: Choose(catalog, schema, value, fuel) == Ok(chosen)
  }

  lemma AcceptsMeans(catalog: Catalog, schema: Schema, value: Json, fuel: nat)
    ensures Accepts(catalog, schema, value, fuel) == Ok(true) <==>
              exists end :: RefersTo(catalog, schema, end) && Suits(catalog, end, value, fuel)
    ensures Accepts(catalog, schema, value, fuel).Err? ==> Accepts(catalog, schema, value, fuel) == Err(Diverges)
  {
    hide EndsIn, Dereference, Accepts, Suits;
    forall end ensures Dereference(catalog, schema) == Ok(end) <==> RefersTo(catalog, schema, end) {
      DereferenceMeans(catalog, schema, end, 32);
    }
    hide RefersTo;
    TypeTells(catalog, schema, value, fuel);
  }

  /** The program's reading of `type`, once references are followed. */
  lemma TypeTells(catalog: Catalog, schema: Schema, value: Json, fuel: nat)
    ensures var end, accepted := Dereference(catalog, schema), Accepts(catalog, schema, value, fuel);
            && (accepted.Err? ==> accepted == Err(Diverges))
            && (accepted == Ok(true) <==> end.Ok? && Suits(catalog, end.value, value, fuel))
  {
    hide Dereference, Choose, TypeMatches, OfKind;
    forall kind ensures TypeMatches(kind, value) <==> OfKind(value, kind) {
      KindMeans(kind, value);
    }
    if Dereference(catalog, schema).Ok? {
      match Dereference(catalog, schema).value.value.Get("type")
      case Some(OArray(kinds)) =>
        if kind :| OString(kind) in kinds && OfKind(value, kind) {
          var i :| 0 <= i < |kinds| && kinds[i] == OString(kind);
        }
      case _ =>
    }
  }

  lemma KindMeans(kind: string, value: Json)
    ensures TypeMatches(kind, value) <==> OfKind(value, kind)
  {
  }

  /** Of the variants, the one at `i` is accepted and all others are refused. */
  ghost predicate Sole(catalog: Catalog, resource: string, variants: seq<OrderedValue>, i: nat, value: Json, fuel: nat)
    ensures Sole(catalog, resource, variants, i, value, fuel) ==> i < |variants|
  {
    i < |variants|
    && forall j :: 0 <= j < |variants| ==> Accepts(catalog, Schema(resource, variants[j]), value, fuel) == Ok(j == i)
  }

  ghost predicate AllRefused(catalog: Catalog, resource: string, variants: seq<OrderedValue>, value: Json, fuel: nat) {
    forall j :: 0 <= j < |variants| ==> Accepts(catalog, Schema(resource, variants[j]), value, fuel) == Ok(false)
  }

  lemma {:induction false} NoneAccepted(catalog: Catalog, resource: string, variants: seq<OrderedValue>, value: Json, fuel: nat)
    ensures Accepting(catalog, resource, variants, value, fuel) == Ok([]) <==> AllRefused(catalog, resource, variants, value, fuel)
    decreases |variants|
  {
    hide Accepts;
    if variants != [] {
      var rest := variants[1..];
      NoneAccepted(catalog, resource, rest, value, fuel);
      assert forall j :: 0 <= j < |rest| ==> rest[j] == variants[j + 1];
      assert forall j :: 1 <= j < |variants| ==> variants[j] == rest[j - 1];
    }
  }

  lemma SoleShifts(catalog: Catalog, resource: string, variants: seq<OrderedValue>, i: nat, value: Json, fuel: nat)
    requires variants != []
    ensures var first := Accepts(catalog, Schema(resource, variants[0]), value, fuel);
            Sole(catalog, resource, variants, i, value, fuel) <==>
              if i == 0 then first == Ok(true) && AllRefused(catalog, resource, variants[1..], value, fuel)
              else first == Ok(false) && Sole(catalog, resource, variants[1..], i - 1, value, fuel)
  {
    hide Accepts;
    var rest := variants[1..];
    assert forall j :: 0 <= j < |rest| ==> rest[j] == variants[j + 1];
    assert forall j :: 1 <= j < |variants| ==> variants[j] == rest[j - 1];
    if i == 0 && AllRefused(catalog, resource, rest, value, fuel) {
      forall j | 1 <= j < |variants| ensures Accepts(catalog, Schema(resource, variants[j]), value, fuel) == Ok(false) {
        assert Accepts(catalog, Schema(resource, rest[j - 1]), value, fuel) == Ok(false);
      }
    } else if i > 0 && Sole(catalog, resource, rest, i - 1, value, fuel) {
      forall j | 1 <= j < |variants| ensures Accepts(catalog, Schema(resource, variants[j]), value, fuel) == Ok(j == i) {
        assert Accepts(catalog, Schema(resource, rest[j - 1]), value, fuel) == Ok(j - 1 == i - 1);
      }
    }
  }

  lemma {:induction false} OneAccepted(
      catalog: Catalog, resource: string, variants: seq<OrderedValue>, value: Json, fuel: nat, schema: Schema)
    ensures Accepting(catalog, resource, variants, value, fuel) == Ok([schema]) <==>
              exists i: nat :: Sole(catalog, resource, variants, i, value, fuel) && schema == Schema(resource, variants[i])
    decreases |variants|
  {
    hide Accepts, Sole, AllRefused;
    if variants == [] {
      NoSole(catalog, resource, value, fuel);
    } else {
      var rest, head := variants[1..], Schema(resource, variants[0]);
      var first, others := Accepts(catalog, head, value, fuel), Accepting(catalog, resource, rest, value, fuel);
      NoneAccepted(catalog, resource, rest, value, fuel);
      OneAccepted(catalog, resource, rest, value, fuel, schema);
      SoleShifts(catalog, resource, variants, 0, value, fuel);
      if Accepting(catalog, resource, variants, value, fuel) == Ok([schema]) {
        if first.value {
          assert [head] + others.value == [schema] && ([head] + others.value)[0] == head && |others.value| == 0;
        } else {
          var i: nat :| Sole(catalog, resource, rest, i, value, fuel) && schema == Schema(resource, rest[i]);
          SoleShifts(catalog, resource, variants, i + 1, value, fuel);
          assert variants[i + 1] == rest[i];
        }
      }
      if i: nat :| Sole(catalog, resource, variants, i, value, fuel) && schema == Schema(resource, variants[i]) {
        SoleShifts(catalog, resource, variants, i, value, fuel);
        if i == 0 {
          assert [head] + [] == [head];
        } else {
          assert rest[i - 1] == variants[i];
        }
      }
    }
  }

  lemma NoSole(catalog: Catalog, resource: string, value: Json, fuel: nat)
    ensures forall i: nat :: !Sole(catalog, resource, [], i, value, fuel)
  {
  }

  /** What the end of the references makes of the value. */
  ghost predicate Settles(catalog: Catalog, end: Schema, value: Json, fuel: nat, chosen: Schema) {
    if value.Null? || !(exists variants :: Offers(end, variants)) then chosen == end
    else exists variants, i: nat :: Offers(end, variants) && Sole(catalog, end.resource, variants, i, value, fuel)
                                    && Choose(catalog, Schema(end.resource, variants[i]), value, fuel) == Ok(chosen)
  }

  lemma OffersMeans(schema: Schema, variants: seq<OrderedValue>)
    ensures Offers(schema, variants) <==> Variants(schema) == Some(variants)
  {
  }

  /**
   * The choice of a variant, exactly: a schema without variants, or for null, is its own choice; otherwise
   * exactly one variant must accept the value, and it is asked in turn.
   */
  lemma ChooseMeans(catalog: Catalog, schema: Schema, value: Json, fuel: nat, chosen: Schema)
    ensures Choose(catalog, schema, value, fuel) == Ok(chosen) <==>
              fuel > 0 && exists end :: RefersTo(catalog, schema, end) && Settles(catalog, end, value, fuel - 1, chosen)
  {
    hide EndsIn, Dereference, Accepting, Offers, Variants, Sole;
    forall end ensures Dereference(catalog, schema) == Ok(end) <==> RefersTo(catalog, schema, end) {
      DereferenceMeans(catalog, schema, end, 32);
    }
    hide RefersTo;
    if fuel > 0 && Dereference(catalog, schema).Ok? {
      var end := Dereference(catalog, schema).value;
      forall variants ensures Offers(end, variants) <==> Variants(end) == Some(variants) {
        OffersMeans(end, variants);
      }
      if Variants(end).Some? {
        var variants := Variants(end).value;
        assert Offers(end, variants);
        forall found
          ensures Accepting(catalog, end.resource, variants, value, fuel - 1) == Ok([found]) <==>
                    exists i: nat :: Sole(catalog, end.resource, variants, i, value, fuel - 1) && found == Schema(end.resource, variants[i])
        {
          OneAccepted(catalog, end.resource, variants, value, fuel - 1, found);
        }
        var matches := Accepting(catalog, end.resource, variants, value, fuel - 1);
        if matches.Ok? && |matches.value| == 1 {
          assert matches.value == [matches.value[0]];
        }
        forall i: nat | Sole(catalog, end.resource, variants, i, value, fuel - 1)
          ensures matches == Ok([Schema(end.resource, variants[i])])
        {
          assert Accepting(catalog, end.resource, variants, value, fuel - 1) == Ok([Schema(end.resource, variants[i])]);
        }
      }
    }
  }

  /* ---------- member layouts ---------- */

  ghost function VisitsAll(catalog: Catalog, resource: string, parts: seq<OrderedValue>, fuel: nat): Rendered<seq<Schema>>
    decreases fuel, 1, |parts|
  {
    if parts == [] then Ok([]) else
    var first :- Visits(catalog, Schema(resource, parts[0]), fuel);
    var rest :- VisitsAll(catalog, resource, parts[1..], fuel);
    Ok(first + rest)
  }

  /** The schemas that lay out the members of a value: the schema itself, then those under `allOf`, depth first. */
  ghost function Visits(catalog: Catalog, schema: Schema, fuel: nat): Rendered<seq<Schema>>
    decreases fuel, 0
  {
    if fuel == 0 then Err(Diverges) else
    var end :- Dereference(catalog, schema);
    match end.value.Get("allOf")
    case Some(OArray(parts)) =>
      var rest :- VisitsAll(catalog, end.resource, parts, fuel - 1);
      Ok([end] + rest)
    case _ => Ok([end])
  }

  /** The members that one schema declares, in its order. */
  function FieldsIn(schema: Schema): seq<Field> {
    match schema.value.Get("properties")
    case Some(OObject(entries)) =>
      seq(|entries|, i requires 0 <= i < |entries| => Field(entries[i].0, Schema(schema.resource, entries[i].1)))
    case _ => []
  }

  /** The first declaration of every name, in order, and nothing else. */
  ghost predicate Firsts(all: seq<Field>, fields: seq<Field>) {
    exists at: seq<nat> :: FirstsAt(all, fields, at)
  }

  ghost predicate IsFirst(all: seq<Field>, q: nat) {
    q < |all| && forall r :: 0 <= r < q ==> all[r].name != all[q].name
  }

  /** What a schema says about additional members, if it says anything. */
  ghost predicate Says(schema: Schema, additional: Additional) {
    match schema.value.Get("additionalProperties")
    case Some(OBool(flag)) => additional == if flag then Any else Closed
    case Some(OObject(entries)) => additional == Governed(Schema(schema.resource, OObject(entries)))
    case _ => false
  }

  ghost predicate Silent(schema: Schema) {
    schema.value.Get("additionalProperties").None?
  }

  /** The last schema that says anything decides; where none does, it stays as it was. */
  ghost predicate Decided(visits: seq<Schema>, inherited: Additional, additional: Additional) {
    (additional == inherited && forall v :: v in visits ==> Silent(v))
    || exists i :: 0 <= i < |visits| && Says(visits[i], additional) && forall j :: i < j < |visits| ==> Silent(visits[j])
  }

  ghost predicate Sensible(schema: Schema) {
    Silent(schema) || exists additional :: Says(schema, additional)
  }

  function AddAll(fields: seq<Field>, more: seq<Field>): seq<Field>
    decreases |more|
  {
    if more == [] then fields
    else AddAll(if HasField(fields, more[0].name) then fields else fields + [more[0]], more[1..])
  }

  lemma {:induction false} AddAllConcat(fields: seq<Field>, s: seq<Field>, t: seq<Field>)
    ensures AddAll(fields, s + t) == AddAll(AddAll(fields, s), t)
    decreases |s|
  {
    if s == [] {
      assert s + t == t;
    } else {
      assert (s + t)[1..] == s[1..] + t;
      AddAllConcat(if HasField(fields, s[0].name) then fields else fields + [s[0]], s[1..], t);
    }
  }

  lemma {:induction false} PropertiesAdd(fields: seq<Field>, resource: string, entries: seq<(string, OrderedValue)>, more: seq<Field>)
    requires |more| == |entries|
    requires forall i :: 0 <= i < |entries| ==> more[i] == Field(entries[i].0, Schema(resource, entries[i].1))
    ensures AddProperties(fields, resource, entries) == AddAll(fields, more)
    decreases |entries|
  {
    hide HasField;
    if entries != [] {
      PropertiesAdd(if HasField(fields, more[0].name) then fields else fields + [more[0]], resource, entries[1..], more[1..]);
    }
  }

  lemma OneSchemaAdds(fields: seq<Field>, schema: Schema)
    ensures AddProperties(fields, schema.resource, PropertiesOf(schema)) == AddAll(fields, FieldsIn(schema))
  {
    PropertiesAdd(fields, schema.resource, PropertiesOf(schema), FieldsIn(schema));
  }

  lemma DecidedConcat(s: seq<Schema>, t: seq<Schema>, first: Additional, second: Additional, third: Additional)
    requires Decided(s, first, second) && Decided(t, second, third)
    ensures Decided(s + t, first, third)
  {
    hide Says, Silent;
    var all := s + t;
    if i :| 0 <= i < |t| && Says(t[i], third) && forall j :: i < j < |t| ==> Silent(t[j]) {
      assert all[|s| + i] == t[i];
      assert forall j :: |s| + i < j < |all| ==> all[j] == t[j - |s|];
    } else if i :| 0 <= i < |s| && Says(s[i], second) && forall j :: i < j < |s| ==> Silent(s[j]) {
      assert all[i] == s[i];
      forall j | i < j < |all| ensures Silent(all[j]) {
        if j >= |s| {
          assert all[j] in t;
        }
      }
    } else {
      assert forall v :: v in all <==> v in s || v in t;
    }
  }

  /** Layouts, exactly: what the visited schemas declare, added in order, and the last policy among them. */
  ghost predicate LaidOut(visits: seq<Schema>, acc: MemberLayout, layout: MemberLayout) {
    layout.fields == AddAll(acc.fields, Gather(FieldsIn, visits)) && Decided(visits, acc.additional, layout.additional)
  }

  lemma LaidOutConcat(s: seq<Schema>, t: seq<Schema>, a: MemberLayout, b: MemberLayout, c: MemberLayout)
    requires LaidOut(s, a, b) && LaidOut(t, b, c)
    ensures LaidOut(s + t, a, c)
  {
    hide Decided, AddAll, Gather;
    DecidedConcat(s, t, a.additional, b.additional, c.additional);
    StableMerge.GatherConcat(FieldsIn, s, t);
    AddAllConcat(a.fields, Gather(FieldsIn, s), Gather(FieldsIn, t));
  }

  lemma OneLaidOut(end: Schema, acc: MemberLayout)
    ensures AdditionalOf(end, acc.additional).Ok? <==> Sensible(end)
    ensures AdditionalOf(end, acc.additional).Ok? ==>
              LaidOut([end], acc, MemberLayout(AddProperties(acc.fields, end.resource, PropertiesOf(end)),
                                               AdditionalOf(end, acc.additional).value))
  {
    OneSchemaAdds(acc.fields, end);
    hide AddAll, AddProperties, FieldsIn;
    assert Gather(FieldsIn, [end]) == FieldsIn(end) by {
      assert [end] == [] + [end];
      GatherStep(FieldsIn, [], end);
      assert [] + FieldsIn(end) == FieldsIn(end);
    }
    if AdditionalOf(end, acc.additional).Ok? {
      assert Silent(end) || Says([end][0], AdditionalOf(end, acc.additional).value);
    }
    if additional :| Says(end, additional) {
      assert AdditionalOf(end, acc.additional) == Ok(additional);
    }
  }

  lemma NothingLaidOut(acc: MemberLayout)
    ensures LaidOut([], acc, acc)
  {
  }

  lemma {:induction false} CollectMeans(catalog: Catalog, schema: Schema, acc: MemberLayout, fuel: nat)
    ensures CollectLayout(catalog, schema, acc, fuel).Ok? <==>
              Visits(catalog, schema, fuel).Ok? && forall v :: v in Visits(catalog, schema, fuel).value ==> Sensible(v)
    ensures CollectLayout(catalog, schema, acc, fuel).Ok? ==>
              LaidOut(Visits(catalog, schema, fuel).value, acc, CollectLayout(catalog, schema, acc, fuel).value)
    decreases fuel, 0
  {
    hide Dereference, LaidOut, Sensible, AddProperties, AdditionalOf, PropertiesOf;
    if fuel > 0 && Dereference(catalog, schema).Ok? {
      var end := Dereference(catalog, schema).value;
      OneLaidOut(end, acc);
      AllOfMeans(end);
      var additional := AdditionalOf(end, acc.additional);
      var here := MemberLayout(AddProperties(acc.fields, end.resource, PropertiesOf(end)),
                               if additional.Ok? then additional.value else Closed);
      CollectAllMeans(catalog, end.resource, AllOf(end), here, fuel - 1);
      var rest := VisitsAll(catalog, end.resource, AllOf(end), fuel - 1);
      assert Visits(catalog, schema, fuel) == if rest.Ok? then Ok([end] + rest.value) else Err(rest.error) by {
        assert [end] + [] == [end];
      }
      if CollectLayout(catalog, schema, acc, fuel).Ok? {
        LaidOutConcat([end], rest.value, acc, here, CollectLayout(catalog, schema, acc, fuel).value);
      }
    }
  }

  lemma AllOfMeans(schema: Schema)
    ensures AllOf(schema) == match schema.value.Get("allOf") case Some(OArray(parts)) => parts case _ => []
  {
  }

  lemma {:induction false} CollectAllMeans(
      catalog: Catalog, resource: string, parts: seq<OrderedValue>, acc: MemberLayout, fuel: nat)
    ensures CollectAll(catalog, resource, parts, acc, fuel).Ok? <==>
              VisitsAll(catalog, resource, parts, fuel).Ok?
              && forall v :: v in VisitsAll(catalog, resource, parts, fuel).value ==> Sensible(v)
    ensures CollectAll(catalog, resource, parts, acc, fuel).Ok? ==>
              LaidOut(VisitsAll(catalog, resource, parts, fuel).value, acc, CollectAll(catalog, resource, parts, acc, fuel).value)
    decreases fuel, 1, |parts|
  {
    hide CollectLayout, Visits, LaidOut, Sensible;
    if parts == [] {
      NothingLaidOut(acc);
    } else {
      var first := Schema(resource, parts[0]);
      CollectMeans(catalog, first, acc, fuel);
      var next := CollectLayout(catalog, first, acc, fuel);
      var middle := if next.Ok? then next.value else acc;
      CollectAllMeans(catalog, resource, parts[1..], middle, fuel);
      if CollectAll(catalog, resource, parts, acc, fuel).Ok? {
        LaidOutConcat(Visits(catalog, first, fuel).value, VisitsAll(catalog, resource, parts[1..], fuel).value, acc, middle,
          CollectAll(catalog, resource, parts, acc, fuel).value);
      }
    }
  }

  /** Adding declarations in order keeps the first of every name. */
  lemma {:induction false} AddAllKeepsFirsts(all: seq<Field>, n: nat)
    requires n <= |all|
    ensures Firsts(all[..n], AddAll([], all[..n]))
  {
    if n == 0 {
      assert FirstsAt(all[..0], [], []);
    } else {
      var s, f := all[..n - 1], all[n - 1];
      AddAllKeepsFirsts(all, n - 1);
      assert all[..n] == s + [f];
      AddAllConcat([], s, [f]);
      FirstsGrow(s, AddAll([], s), f);
    }
  }

  lemma StillFirst(all: seq<Field>, f: Field)
    ensures forall q: nat :: q < |all| ==> (IsFirst(all + [f], q) <==> IsFirst(all, q))
    ensures IsFirst(all + [f], |all|) <==> !(exists q :: 0 <= q < |all| && all[q].name == f.name)
  {
    var more := all + [f];
    assert forall r :: 0 <= r < |all| ==> all[r] == more[r];
    forall q: nat | q < |all| && IsFirst(more, q) ensures IsFirst(all, q) {
      forall r | 0 <= r < q ensures all[r].name != all[q].name {
        assert more[r].name != more[q].name;
      }
    }
    forall r | 0 <= r < |all| && IsFirst(more, |all|) ensures all[r].name != f.name {
      assert more[r].name != more[|all|].name;
    }
  }

  /** The positions of the first declarations. */
  ghost predicate FirstsAt(all: seq<Field>, fields: seq<Field>, at: seq<nat>) {
    |at| == |fields| && (forall k :: 0 <= k < |at| ==> at[k] < |all| && all[at[k]] == fields[k])
    && (forall k, l :: 0 <= k < l < |at| ==> at[k] < at[l])
    && forall q: nat :: q < |all| ==> (q in at <==> IsFirst(all, q))
  }

  lemma FirstsGrow(all: seq<Field>, fields: seq<Field>, f: Field)
    requires Firsts(all, fields)
    ensures Firsts(all + [f], AddAll(fields, [f]))
  {
    hide IsFirst;
    var at: seq<nat> :| FirstsAt(all, fields, at);
    StillFirst(all, f);
    FirstExists(all, fields, at, f.name);
    AddOne(fields, f);
    hide HasField, AddAll;
    if HasField(fields, f.name) {
      SamePositions(all, fields, at, f);
    } else {
      MorePositions(all, fields, at, f);
    }
  }

  lemma AddOne(fields: seq<Field>, f: Field)
    ensures AddAll(fields, [f]) == if HasField(fields, f.name) then fields else fields + [f]
  {
    assert [f][1..] == [];
  }

  lemma SamePositions(all: seq<Field>, fields: seq<Field>, at: seq<nat>, f: Field)
    requires FirstsAt(all, fields, at) && !IsFirst(all + [f], |all|)
    requires forall q: nat :: q < |all| ==> (IsFirst(all + [f], q) <==> IsFirst(all, q))
    ensures FirstsAt(all + [f], fields, at)
  {
    hide IsFirst;
  }

  lemma MorePositions(all: seq<Field>, fields: seq<Field>, at: seq<nat>, f: Field)
    requires FirstsAt(all, fields, at) && IsFirst(all + [f], |all|)
    requires forall q: nat :: q < |all| ==> (IsFirst(all + [f], q) <==> IsFirst(all, q))
    ensures FirstsAt(all + [f], fields + [f], at + [|all|])
  {
    hide IsFirst;
    var longer := at + [|all|];
    assert forall q :: q in longer <==> q in at || q == |all|;
  }

  /** A name that is declared at all has a first declaration. */
  lemma FirstExists(all: seq<Field>, fields: seq<Field>, at: seq<nat>, name: string)
    requires |at| == |fields| && forall k :: 0 <= k < |at| ==> at[k] < |all| && all[at[k]] == fields[k]
    requires forall q: nat :: q < |all| ==> (q in at <==> IsFirst(all, q))
    ensures HasField(fields, name) <==> exists q :: 0 <= q < |all| && all[q].name == name
  {
    if q :| 0 <= q < |all| && all[q].name == name {
      var first := Earliest(all, name, q);
      assert first in at;
      var k :| 0 <= k < |at| && at[k] == first;
      assert fields[k].name == name;
    }
  }

  lemma {:induction false} Earliest(all: seq<Field>, name: string, q: nat) returns (first: nat)
    requires q < |all| && all[q].name == name
    ensures IsFirst(all, first) && all[first].name == name
  {
    if r :| 0 <= r < q && all[r].name == name {
      first := Earliest(all, name, r);
    } else {
      first := q;
    }
  }

  /**
   * The members of a layout, exactly: the first declaration of every name among the visited schemas, in the
   * order of those declarations, under the last policy for additional members; closed where there is none.
   */
  lemma LayoutMeans(catalog: Catalog, schema: Schema, fuel: nat, layout: MemberLayout)
    requires LayoutOf(catalog, schema, fuel) == Ok(layout)
    ensures exists end, visits ::
              RefersTo(catalog, schema, end) && Visits(catalog, end, fuel) == Ok(visits)
              && Firsts(Gather(FieldsIn, visits), layout.fields) && Decided(visits, Closed, layout.additional)
  {
    hide Dereference, EndsIn, CollectLayout, Visits, Decided, Firsts;
    var end := Dereference(catalog, schema).value;
    DereferenceMeans(catalog, schema, end, 32);
    CollectMeans(catalog, end, MemberLayout([], Closed), fuel);
    var visits := Visits(catalog, end, fuel).value;
    var all := Gather(FieldsIn, visits);
    AddAllKeepsFirsts(all, |all|);
    assert all[..|all|] == all;
  }
}
