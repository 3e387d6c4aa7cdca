/**
 * The order in which the printer writes, and the schemas it follows: the arrangement of a value is the only
 * tree that is governed by its schema, and the lines of an object stand in the order of its plan.
 */
module RenderLaws {
  import opened Prelude
  import opened Ordering
  import opened CanonicalText
  import opened Layout
  import opened SchemaCatalog
  import opened CatalogLaws
  import opened CodecRoundTrip
  import opened Renderer

  /* ---------- the order of members ---------- */

  ghost predicate DeclaredAt(fields: seq<Field>, k: int, name: string) {
    0 <= k < |fields| && fields[k].name == name
  }

  ghost predicate IsDeclared(fields: seq<Field>, name: string) {
    exists k :: DeclaredAt(fields, k, name)
  }

  /** Declared members come in the order of their declarations, then the others in the order of their names. */
  ghost predicate Before(fields: seq<Field>, x: string, y: string) {
    (exists a, b :: DeclaredAt(fields, a, x) && DeclaredAt(fields, b, y) && a < b)
    || (IsDeclared(fields, x) && !IsDeclared(fields, y))
    || (!IsDeclared(fields, x) && !IsDeclared(fields, y) && x != y && StringLe(x, y))
  }

  /** The schema of a member: its declaration's, or that of the policy for additional members, if any. */
  ghost predicate GovernedBy(layout: MemberLayout, name: string, schema: Option<Schema>) {
    (exists k :: DeclaredAt(layout.fields, k, name) && schema == Some(layout.fields[k].schema))
    || (!IsDeclared(layout.fields, name)
        && match layout.additional
           case Closed => false
           case Any => schema == None
           case Governed(s) => schema == Some(s))
  }

  /** A plan for members with these names. */
  ghost predicate Follows(layout: MemberLayout, keys: set<string>, plan: seq<Planned>) {
    (forall i, j :: 0 <= i < j < |plan| ==> Before(layout.fields, plan[i].name, plan[j].name))
    && (forall i :: 0 <= i < |plan| ==> GovernedBy(layout, plan[i].name, plan[i].schema) && plan[i].name in keys)
    && forall name :: name in keys ==> exists i :: 0 <= i < |plan| && plan[i].name == name
  }

  lemma KnownField(fields: seq<Field>, name: string)
    ensures HasField(fields, name) <==> IsDeclared(fields, name)
  {
    if HasField(fields, name) {
      var i :| 0 <= i < |fields| && fields[i].name == name;
      assert DeclaredAt(fields, i, name);
    }
  }

  lemma OneDeclaration(fields: seq<Field>, a: int, b: int, name: string)
    requires DistinctNames(fields) && DeclaredAt(fields, a, name) && DeclaredAt(fields, b, name)
    ensures a == b
  {
  }

  lemma NeverBoth(fields: seq<Field>, x: string, y: string)
    requires DistinctNames(fields) && Before(fields, x, y)
    ensures !Before(fields, y, x) && x != y
  {
    if a, b :| DeclaredAt(fields, a, x) && DeclaredAt(fields, b, y) && a < b {
      forall c, d | DeclaredAt(fields, c, y) && DeclaredAt(fields, d, x) ensures c == b && d == a {
        OneDeclaration(fields, c, b, y);
        OneDeclaration(fields, d, a, x);
      }
      assert IsDeclared(fields, x) && IsDeclared(fields, y);
    } else if !IsDeclared(fields, x) && StringLe(y, x) {
      StringLeAntisymmetric(x, y);
    }
  }

  /** Planned by a declaration that stands at `from` or behind. */
  ghost predicate FromField(fields: seq<Field>, from: nat, p: Planned) {
    exists k :: from <= k && DeclaredAt(fields, k, p.name) && p.schema == Some(fields[k].schema)
  }

  /** The declared part of a plan: positions among the fields that increase. */
  lemma {:induction false} DeclaredInOrder(fields: seq<Field>, keys: set<string>, from: nat)
    requires from <= |fields| && DistinctNames(fields)
    ensures var plan := DeclaredMembers(fields[from..], keys);
            && (forall i :: 0 <= i < |plan| ==> FromField(fields, from, plan[i]))
            && forall i, j :: 0 <= i < j < |plan| ==> Before(fields, plan[i].name, plan[j].name)
    decreases |fields| - from
  {
    if from < |fields| {
      DeclaredInOrder(fields, keys, from + 1);
      DeclaredStep(fields, keys, from);
      PrependDeclared(fields, from, DeclaredMembers(fields[from + 1..], keys));
      hide DeclaredMembers, FromField, Before, DistinctNames;
    }
  }

  lemma DeclaredStep(fields: seq<Field>, keys: set<string>, from: nat)
    requires from < |fields|
    ensures var first, rest := fields[from], DeclaredMembers(fields[from + 1..], keys);
            DeclaredMembers(fields[from..], keys)
            == if first.name in keys then [Planned(first.name, Some(first.schema))] + rest else rest
  {
    assert fields[from..][1..] == fields[from + 1..];
    hide HasField;
    var rest := DeclaredMembers(fields[from + 1..], keys);
    assert [] + rest == rest;
  }

  lemma PrependDeclared(fields: seq<Field>, from: nat, rest: seq<Planned>)
    requires from < |fields|
    requires forall i :: 0 <= i < |rest| ==> FromField(fields, from + 1, rest[i])
    requires forall i, j :: 0 <= i < j < |rest| ==> Before(fields, rest[i].name, rest[j].name)
    ensures var plan := [Planned(fields[from].name, Some(fields[from].schema))] + rest;
            && (forall i :: 0 <= i < |plan| ==> FromField(fields, from, plan[i]))
            && (forall i, j :: 0 <= i < j < |plan| ==> Before(fields, plan[i].name, plan[j].name))
            && forall i :: 0 <= i < |rest| ==> FromField(fields, from, rest[i])
  {
    var head := Planned(fields[from].name, Some(fields[from].schema));
    var plan := [head] + rest;
    assert FromField(fields, from, head) by { assert DeclaredAt(fields, from, head.name); }
    forall i | 0 <= i < |rest| ensures FromField(fields, from, rest[i]) && Before(fields, head.name, rest[i].name) {
      assert FromField(fields, from + 1, rest[i]);
      var k :| from + 1 <= k && DeclaredAt(fields, k, rest[i].name) && rest[i].schema == Some(fields[k].schema);
      assert DeclaredAt(fields, from, head.name) && DeclaredAt(fields, k, rest[i].name) && from < k;
    }
    hide FromField, Before;
    forall i, j | 0 <= i < j < |plan| ensures Before(fields, plan[i].name, plan[j].name) {
      if i == 0 {
        assert plan[j] == rest[j - 1];
      } else {
        assert Before(fields, rest[i - 1].name, rest[j - 1].name);
      }
    }
  }

  ghost predicate Rest(layout: MemberLayout, plan: seq<Planned>) {
    forall i :: 0 <= i < |plan| ==> plan[i].schema == if layout.additional.Governed? then Some(layout.additional.schema) else None
  }

  /** The other members: in the order in which they are listed, under the policy. */
  lemma {:induction false} OthersInOrder(names: seq<string>, known: set<string>, layout: MemberLayout)
    requires Distinct(names) && forall i, j :: 0 <= i < j < |names| ==> StringLe(names[i], names[j])
    ensures var others := AdditionalMembers(names, known, layout.additional);
            && (others.Ok? <==> !layout.additional.Closed? || forall name :: name in names ==> name in known)
            && (others.Ok? ==>
                  Rest(layout, others.value)
                  && forall i, j :: 0 <= i < j < |others.value| ==>
                       others.value[i].name != others.value[j].name && StringLe(others.value[i].name, others.value[j].name))
            && (others.Err? ==> others == Err(ClosedSchema))
  {
    if names != [] {
      OthersInOrder(names[1..], known, layout);
      assert names == [names[0]] + names[1..];
      var others, rest := AdditionalMembers(names, known, layout.additional), AdditionalMembers(names[1..], known, layout.additional);
      if rest.Ok? && others.Ok? && names[0] !in known {
        forall j | 0 <= j < |rest.value| ensures names[0] != rest.value[j].name && StringLe(names[0], rest.value[j].name) {
          assert Plans(rest.value, rest.value[j].name);
          assert rest.value[j].name in names[1..];
        }
      }
    }
  }

  /** Both parts of a plan. */
  lemma PlanParts(layout: MemberLayout, keys: set<string>) returns (declared: seq<Planned>, others: seq<Planned>)
    requires DistinctNames(layout.fields) && Plan(layout, keys).Ok?
    ensures Plan(layout, keys).value == declared + others
    ensures forall i :: 0 <= i < |declared| ==> FromField(layout.fields, 0, declared[i])
    ensures forall i, j :: 0 <= i < j < |declared| ==> Before(layout.fields, declared[i].name, declared[j].name)
    ensures forall i :: 0 <= i < |others| ==> !IsDeclared(layout.fields, others[i].name)
    ensures forall i, j :: 0 <= i < j < |others| ==> others[i].name != others[j].name && StringLe(others[i].name, others[j].name)
    ensures Rest(layout, others) && (layout.additional.Closed? ==> others == [])
  {
    hide Before, FromField, StringLe, IsDeclared, HasField, DeclaredMembers, AdditionalMembers, SortedKeys;
    declared := DeclaredMembers(layout.fields, keys);
    others := AdditionalMembers(SortedKeys(keys), PlanNames(declared), layout.additional).value;
    assert layout.fields[0..] == layout.fields && DeclaredMembers(layout.fields[0..], keys) == declared;
    DeclaredInOrder(layout.fields, keys, 0);
    OthersInOrder(SortedKeys(keys), PlanNames(declared), layout);
    forall i | 0 <= i < |others| ensures !IsDeclared(layout.fields, others[i].name) && !layout.additional.Closed? {
      assert Plans(others, others[i].name);
      KnownField(layout.fields, others[i].name);
    }
    assert others != [] ==> !IsDeclared(layout.fields, others[0].name);
  }

  lemma DeclaredGoverns(layout: MemberLayout, p: Planned)
    requires FromField(layout.fields, 0, p)
    ensures IsDeclared(layout.fields, p.name) && GovernedBy(layout, p.name, p.schema)
  {
  }

  lemma RestGoverns(layout: MemberLayout, others: seq<Planned>, i: nat)
    requires i < |others| && Rest(layout, others) && !layout.additional.Closed? && !IsDeclared(layout.fields, others[i].name)
    ensures GovernedBy(layout, others[i].name, others[i].schema)
  {
    hide IsDeclared;
  }

  lemma PlanNamesKeys(layout: MemberLayout, keys: set<string>)
    requires DistinctNames(layout.fields) && Plan(layout, keys).Ok?
    ensures var plan := Plan(layout, keys).value;
            (forall i :: 0 <= i < |plan| ==> plan[i].name in keys)
            && forall name :: name in keys ==> exists i :: 0 <= i < |plan| && plan[i].name == name
  {
    var plan := Plan(layout, keys).value;
    hide Plan;
    forall i | 0 <= i < |plan| ensures plan[i].name in keys {
      assert Plans(plan, plan[i].name);
    }
    forall name | name in keys ensures exists i :: 0 <= i < |plan| && plan[i].name == name {
      assert Plans(plan, name);
    }
  }

  /** What is planned follows the layout. */
  lemma PlanFollows(layout: MemberLayout, keys: set<string>)
    requires DistinctNames(layout.fields) && Plan(layout, keys).Ok?
    ensures Follows(layout, keys, Plan(layout, keys).value)
  {
    var declared, others := PlanParts(layout, keys);
    var plan := Plan(layout, keys).value;
    PlanNamesKeys(layout, keys);
    hide Plan, Before, StringLe, FromField, IsDeclared, GovernedBy, Rest;
    forall i | 0 <= i < |declared| ensures IsDeclared(layout.fields, declared[i].name) && GovernedBy(layout, declared[i].name, declared[i].schema) {
      DeclaredGoverns(layout, declared[i]);
    }
    PlannedInOrder(layout.fields, declared, others);
    forall i | 0 <= i < |plan| ensures GovernedBy(layout, plan[i].name, plan[i].schema) {
      if i >= |declared| {
        RestGoverns(layout, others, i - |declared|);
      }
    }
  }

  lemma PlannedInOrder(fields: seq<Field>, declared: seq<Planned>, others: seq<Planned>)
    requires forall i :: 0 <= i < |declared| ==> IsDeclared(fields, declared[i].name)
    requires forall i :: 0 <= i < |others| ==> !IsDeclared(fields, others[i].name)
    requires forall i, j :: 0 <= i < j < |declared| ==> Before(fields, declared[i].name, declared[j].name)
    requires forall i, j :: 0 <= i < j < |others| ==> others[i].name != others[j].name && StringLe(others[i].name, others[j].name)
    ensures var plan := declared + others; forall i, j :: 0 <= i < j < |plan| ==> Before(fields, plan[i].name, plan[j].name)
  {
    hide IsDeclared, StringLe;
    var plan, n := declared + others, |declared|;
    forall i, j | 0 <= i < j < |plan| ensures Before(fields, plan[i].name, plan[j].name) {
      if j < n {
        assert Before(fields, declared[i].name, declared[j].name);
      } else if i >= n {
        assert plan[i] == others[i - n] && plan[j] == others[j - n];
      }
    }
  }

  /* ---------- one plan only ---------- */

  lemma FirstOfPlan(layout: MemberLayout, keys: set<string>, p: seq<Planned>, q: seq<Planned>)
    requires DistinctNames(layout.fields) && Follows(layout, keys, p) && Follows(layout, keys, q) && p != [] && q != []
    ensures p[0] == q[0]
  {
    hide Before, GovernedBy;
    var i :| 0 <= i < |p| && p[i].name == q[0].name;
    var j :| 0 <= j < |q| && q[j].name == p[0].name;
    if i > 0 && j > 0 {
      NeverBoth(layout.fields, p[0].name, p[i].name);
    } else if i > 0 {
      NeverBoth(layout.fields, p[0].name, p[i].name);
    }
    OneSchema(layout, p[0].name, p[0].schema, q[0].schema);
  }

  lemma OneSchema(layout: MemberLayout, name: string, first: Option<Schema>, second: Option<Schema>)
    requires DistinctNames(layout.fields) && GovernedBy(layout, name, first) && GovernedBy(layout, name, second)
    ensures first == second
  {
    forall a, b | DeclaredAt(layout.fields, a, name) && DeclaredAt(layout.fields, b, name) ensures a == b {
      OneDeclaration(layout.fields, a, b, name);
    }
  }

  lemma RestOfPlan(layout: MemberLayout, keys: set<string>, p: seq<Planned>)
    requires DistinctNames(layout.fields) && Follows(layout, keys, p) && p != []
    ensures Follows(layout, keys - {p[0].name}, p[1..])
  {
    hide Before, GovernedBy;
    forall i | 0 < i < |p| ensures p[i].name != p[0].name {
      NeverBoth(layout.fields, p[0].name, p[i].name);
    }
    forall name | name in keys - {p[0].name} ensures exists i :: 0 <= i < |p[1..]| && p[1..][i].name == name {
      var i :| 0 <= i < |p| && p[i].name == name;
      assert p[1..][i - 1].name == name;
    }
  }

  lemma EmptyPlan(layout: MemberLayout, keys: set<string>, p: seq<Planned>)
    requires Follows(layout, keys, p)
    ensures p == [] <==> keys == {}
  {
    hide Before, GovernedBy;
    if p != [] {
      assert p[0].name in keys;
    }
  }

  lemma {:induction false} OnePlan(layout: MemberLayout, keys: set<string>, p: seq<Planned>, q: seq<Planned>)
    requires DistinctNames(layout.fields) && Follows(layout, keys, p) && Follows(layout, keys, q)
    ensures p == q
    decreases |p|
  {
    EmptyPlan(layout, keys, p);
    EmptyPlan(layout, keys, q);
    if p != [] {
      FirstOfPlan(layout, keys, p, q);
      RestOfPlan(layout, keys, p);
      RestOfPlan(layout, keys, q);
      OnePlan(layout, keys - {p[0].name}, p[1..], q[1..]);
      assert p == [p[0]] + p[1..] && q == [q[0]] + q[1..];
    }
  }

  /**
   * The plan of an object, exactly: the one list of its members in which declared members come in schema
   * order and the others behind them in the order of their names, each under its own schema; and there is
   * none if and only if the schema is closed and a member is not declared.
   */
  lemma PlanExactly(layout: MemberLayout, keys: set<string>, plan: seq<Planned>)
    requires DistinctNames(layout.fields)
    ensures Plan(layout, keys) == Ok(plan) <==> Follows(layout, keys, plan)
    ensures Plan(layout, keys).Err? <==> layout.additional.Closed? && exists name :: name in keys && !IsDeclared(layout.fields, name)
  {
    hide Follows;
    if Plan(layout, keys).Ok? {
      PlanFollows(layout, keys);
      if Follows(layout, keys, plan) {
        OnePlan(layout, keys, plan, Plan(layout, keys).value);
      }
      OnlyDeclared(layout, keys, Plan(layout, keys).value);
    } else {
      var name := NotPlanned(layout, keys);
      if Follows(layout, keys, plan) {
        OnlyDeclared(layout, keys, plan);
      }
    }
  }

  lemma OnlyDeclared(layout: MemberLayout, keys: set<string>, plan: seq<Planned>)
    requires Follows(layout, keys, plan)
    ensures layout.additional.Closed? ==> forall name :: name in keys ==> IsDeclared(layout.fields, name)
  {
    hide Before;
    forall name | name in keys && layout.additional.Closed? ensures IsDeclared(layout.fields, name) {
      var i :| 0 <= i < |plan| && plan[i].name == name;
      assert GovernedBy(layout, plan[i].name, plan[i].schema);
    }
  }

  lemma NotPlanned(layout: MemberLayout, keys: set<string>) returns (name: string)
    requires DistinctNames(layout.fields) && Plan(layout, keys).Err?
    ensures layout.additional.Closed? && name in keys && !IsDeclared(layout.fields, name)
  {
    var declared := DeclaredMembers(layout.fields, keys);
    OthersInOrder(SortedKeys(keys), PlanNames(declared), layout);
    name :| name in SortedKeys(keys) && name !in PlanNames(declared);
    KnownField(layout.fields, name);
  }

  /* ---------- the arrangement ---------- */

  /** The schema that governs a value, once its variant is chosen. */
  ghost predicate Chosen(catalog: Catalog, schema: Option<Schema>, value: Json, fuel: nat, chosen: Option<Schema>) {
    match schema
    case None => chosen == None
    case Some(s) => chosen.Some? && Choose(catalog, s, value, fuel) == Ok(chosen.value)
  }

  /** The schema of the items: what stands under `items` once references are followed. */
  ghost predicate ItemSchema(catalog: Catalog, schema: Schema, items: Schema) {
    exists end :: RefersTo(catalog, schema, end) && end.value.Get("items") == Some(items.value) && items.resource == end.resource
  }

  ghost predicate GovernedItems(catalog: Catalog, values: seq<Json>, schema: Schema, items: seq<Tree>, fuel: nat)
    decreases values, 0
  {
    |items| == |values|
    && forall i :: 0 <= i < |values| ==> GovernedTree(catalog, values[i], Some(schema), items[i], fuel)
  }

  ghost predicate GovernedMembers(catalog: Catalog, value: Json, plan: seq<Planned>, entries: seq<Entry>, fuel: nat)
    requires value.Obj? && forall i :: 0 <= i < |plan| ==> plan[i].name in value.fields
    decreases value, 0
  {
    |entries| == |plan|
    && forall i :: 0 <= i < |plan| ==>
         entries[i].key == plan[i].name
         && GovernedTree(catalog, value.fields[plan[i].name], plan[i].schema, entries[i].child, fuel)
  }

  /** The tree under the schema chosen for the value. */
  ghost predicate GovernedAs(catalog: Catalog, value: Json, chosen: Option<Schema>, t: Tree, fuel: nat)
    decreases value, 1
  {
    if value.IsInline() then t == Leaf(value) && InlineText(value).Some?
    else
      chosen.Some?
      && match t
         case Sequence(items) =>
           value.Arr? && exists itemSchema :: ItemSchema(catalog, chosen.value, itemSchema)
                                              && GovernedItems(catalog, value.items, itemSchema, items, fuel)
         case Mapping(entries) =>
           value.Obj? && exists layout, plan :: LayoutOf(catalog, chosen.value, fuel) == Ok(layout)
                                                && Follows(layout, value.fields.Keys, plan)
                                                && GovernedMembers(catalog, value, plan, entries, fuel)
         case _ => false
  }

  /**
   * The tree is the value laid out under its schema: every scalar and empty container a leaf, every array
   * under its item schema, and the members of every object in the order of its layout, each under its own
   * schema.
   */
  ghost predicate GovernedTree(catalog: Catalog, value: Json, schema: Option<Schema>, t: Tree, fuel: nat)
    decreases value, 2
  {
    exists chosen :: Chosen(catalog, schema, value, fuel, chosen) && GovernedAs(catalog, value, chosen, t, fuel)
  }

  lemma ChosenMeans(catalog: Catalog, schema: Option<Schema>, value: Json, fuel: nat, chosen: Option<Schema>)
    ensures ChooseOptional(catalog, schema, value, fuel) == Ok(chosen) <==> Chosen(catalog, schema, value, fuel, chosen)
  {
  }

  lemma ItemsMean(catalog: Catalog, schema: Schema, items: Schema)
    ensures ItemsOf(catalog, schema) == Ok(items) <==> ItemSchema(catalog, schema, items)
  {
    hide Dereference, EndsIn;
    forall end ensures Dereference(catalog, schema) == Ok(end) <==> RefersTo(catalog, schema, end) {
      DereferenceMeans(catalog, schema, end, 32);
    }
    hide RefersTo;
  }

  lemma {:induction false} ItemsExactly(catalog: Catalog, values: seq<Json>, schema: Schema, items: seq<Tree>, fuel: nat)
    ensures ArrangeItems(catalog, values, schema, fuel) == Ok(items) <==> GovernedItems(catalog, values, schema, items, fuel)
    decreases values, 0
  {
    hide Arrange, GovernedTree, Printable, PrintableItems;
    if values != [] {
      assert values == [values[0]] + values[1..];
      if items != [] {
        ArrangedExactly(catalog, values[0], Some(schema), items[0], fuel);
        ItemsExactly(catalog, values[1..], schema, items[1..], fuel);
        assert items == [items[0]] + items[1..];
        assert GovernedItems(catalog, values, schema, items, fuel) <==>
            GovernedTree(catalog, values[0], Some(schema), items[0], fuel) && GovernedItems(catalog, values[1..], schema, items[1..], fuel);
      }
    }
  }

  lemma {:induction false} MembersExactly(catalog: Catalog, value: Json, plan: seq<Planned>, entries: seq<Entry>, fuel: nat)
    requires Covers(value, plan)
    ensures ArrangeMembers(catalog, value, plan, fuel) == Ok(entries) <==> GovernedMembers(catalog, value, plan, entries, fuel)
    decreases value, 0, |plan|
  {
    hide Arrange, GovernedTree, Printable, PrintableEntries;
    if plan != [] && entries != [] {
      var child := value.fields[plan[0].name];
      ArrangedExactly(catalog, child, plan[0].schema, entries[0].child, fuel);
      MembersExactly(catalog, value, plan[1..], entries[1..], fuel);
      assert entries == [entries[0]] + entries[1..];
      assert entries[0] == Entry(entries[0].key, entries[0].child);
      assert GovernedMembers(catalog, value, plan, entries, fuel) <==>
          entries[0].key == plan[0].name && GovernedTree(catalog, child, plan[0].schema, entries[0].child, fuel)
          && GovernedMembers(catalog, value, plan[1..], entries[1..], fuel);
    }
  }

  /** What the arrangement of a value is, once its schema is chosen. */
  ghost function ArrangeAs(catalog: Catalog, value: Json, chosen: Option<Schema>, fuel: nat): Rendered<Tree> {
    if value.IsInline() then if InlineText(value).Some? then Ok(Leaf(value)) else Err(UnsafeNumber)
    else if chosen.None? then Err(NoGoverningSchema)
    else if value.Arr? then
      var itemSchema :- ItemsOf(catalog, chosen.value);
      var items :- ArrangeItems(catalog, value.items, itemSchema, fuel);
      Ok(Sequence(items))
    else
      var layout :- LayoutOf(catalog, chosen.value, fuel);
      var plan :- Plan(layout, value.fields.Keys);
      PlanCovers(value, plan);
      var entries :- ArrangeMembers(catalog, value, plan, fuel);
      Ok(Mapping(entries))
  }

  lemma ArrangeUnfolds(catalog: Catalog, value: Json, schema: Option<Schema>, fuel: nat)
    ensures var chosen := ChooseOptional(catalog, schema, value, fuel);
            Arrange(catalog, value, schema, fuel) == if chosen.Err? then Err(chosen.error) else ArrangeAs(catalog, value, chosen.value, fuel)
  {
    hide ChooseOptional, ItemsOf, LayoutOf, Plan, ArrangeItems, ArrangeMembers, InlineText, Printable;
  }

  lemma {:induction false} ArrayExactly(catalog: Catalog, value: Json, chosen: Schema, t: Tree, fuel: nat)
    requires value.Arr? && !value.IsInline()
    ensures ArrangeAs(catalog, value, Some(chosen), fuel) == Ok(t) <==> GovernedAs(catalog, value, Some(chosen), t, fuel)
    decreases value, 0
  {
    hide ItemsOf, ItemSchema, ArrangeItems, GovernedItems, GovernedMembers, LayoutOf, Follows;
    forall items ensures ItemsOf(catalog, chosen) == Ok(items) <==> ItemSchema(catalog, chosen, items) {
      ItemsMean(catalog, chosen, items);
    }
    if ItemsOf(catalog, chosen).Ok? && t.Sequence? {
      ItemsExactly(catalog, value.items, ItemsOf(catalog, chosen).value, t.items, fuel);
      assert ItemSchema(catalog, chosen, ItemsOf(catalog, chosen).value);
    }
  }

  lemma {:induction false} ObjectExactly(catalog: Catalog, value: Json, chosen: Schema, t: Tree, fuel: nat)
    requires value.Obj? && !value.IsInline()
    ensures ArrangeAs(catalog, value, Some(chosen), fuel) == Ok(t) <==> GovernedAs(catalog, value, Some(chosen), t, fuel)
    decreases value, 0
  {
    hide ItemSchema, ArrangeMembers, GovernedItems, GovernedMembers, LayoutOf, Plan, Follows, DistinctPlan, Plans;
    if LayoutOf(catalog, chosen, fuel).Ok? {
      var layout := LayoutOf(catalog, chosen, fuel).value;
      forall plan ensures Plan(layout, value.fields.Keys) == Ok(plan) <==> Follows(layout, value.fields.Keys, plan) {
        PlanExactly(layout, value.fields.Keys, plan);
      }
      if Plan(layout, value.fields.Keys).Ok? && t.Mapping? {
        var plan := Plan(layout, value.fields.Keys).value;
        PlanCovers(value, plan);
        MembersExactly(catalog, value, plan, t.entries, fuel);
        assert Follows(layout, value.fields.Keys, plan);
      }
    }
  }

  /** The arrangement of a value, exactly: the one tree that its schema governs. */
  lemma {:induction false} ArrangedExactly(catalog: Catalog, value: Json, schema: Option<Schema>, t: Tree, fuel: nat)
    ensures Arrange(catalog, value, schema, fuel) == Ok(t) <==> GovernedTree(catalog, value, schema, t, fuel)
    decreases value, 1
  {
    hide ChooseOptional, Chosen, ArrangeAs, GovernedAs, InlineText, Arrange;
    forall chosen
      ensures ChooseOptional(catalog, schema, value, fuel) == Ok(chosen) <==> Chosen(catalog, schema, value, fuel, chosen)
    {
      ChosenMeans(catalog, schema, value, fuel, chosen);
    }
    ArrangeUnfolds(catalog, value, schema, fuel);
    var choice := ChooseOptional(catalog, schema, value, fuel);
    if choice.Ok? {
      assert Chosen(catalog, schema, value, fuel, choice.value);
      if value.IsInline() || choice.value.None? {
        InlineExactly(catalog, value, choice.value, t, fuel);
      } else if value.Arr? {
        ArrayExactly(catalog, value, choice.value.value, t, fuel);
      } else {
        ObjectExactly(catalog, value, choice.value.value, t, fuel);
      }
    }
  }

  lemma InlineExactly(catalog: Catalog, value: Json, chosen: Option<Schema>, t: Tree, fuel: nat)
    requires value.IsInline() || chosen.None?
    ensures ArrangeAs(catalog, value, chosen, fuel) == Ok(t) <==> GovernedAs(catalog, value, chosen, t, fuel)
  {
    hide InlineText, ItemsOf, LayoutOf;
  }

  /**
   * The canonical text of a value, exactly: it is rendered if and only if the selected schema governs some
   * tree of it, and then it is the text of that tree.
   */
  lemma RenderedExactly(catalog: Catalog, selector: Selector, value: Json, fuel: nat, text: string)
    ensures Render(catalog, selector, value, fuel) == Ok(text) <==>
              exists schema, t :: Select(catalog, selector) == Ok(schema) && GovernedTree(catalog, value, Some(schema), t, fuel)
                                  && Printable(t) && text == SourceText(t)
  {
    hide Arrange, GovernedTree, Select, SourceText;
    if Select(catalog, selector).Ok? {
      var schema := Select(catalog, selector).value;
      forall t ensures Arrange(catalog, value, Some(schema), fuel) == Ok(t) <==> GovernedTree(catalog, value, Some(schema), t, fuel) {
        ArrangedExactly(catalog, value, Some(schema), t, fuel);
      }
    }
  }

  /* ---------- the lines of an object ---------- */

  /** Where the lines of a member start among those of its object. */
  ghost function StartOf(entries: seq<Entry>, i: nat, indent: nat): nat
    requires PrintableEntries(entries) && i <= |entries|
  {
    if i == 0 then 0 else |Member(entries[0].key, entries[0].child, indent)| + StartOf(entries[1..], i - 1, indent)
  }

  /** The line starts with the spelled key, at the column of the object. */
  ghost predicate HeadLine(line: string, key: string, indent: nat) {
    StartsWith(line, Spaces(indent) + CanonicalString(key) + ":")
  }

  /** The lines of an object hold its members in order, each from the line with its key on. */
  lemma {:induction false} LinesInOrder(entries: seq<Entry>, indent: nat, i: nat)
    requires PrintableEntries(entries) && i < |entries|
    ensures Printable(entries[i].child)
    ensures var lines, start := EntryLines(entries, indent), StartOf(entries, i, indent);
            var block := Member(entries[i].key, entries[i].child, indent);
            && block != [] && start + |block| == StartOf(entries, i + 1, indent) <= |lines|
            && lines[start..start + |block|] == block && HeadLine(lines[start], entries[i].key, indent)
  {
    hide Printable, Member, HeadLine;
    var first := Member(entries[0].key, entries[0].child, indent);
    var rest := EntryLines(entries[1..], indent);
    if i == 0 {
      MemberHead(entries[0].key, entries[0].child, indent);
      Shifted(first, rest, 0, 0);
      assert StartOf(entries[1..], 0, indent) == 0;
    } else {
      LinesInOrder(entries[1..], indent, i - 1);
      var start, block := StartOf(entries[1..], i - 1, indent), Member(entries[i].key, entries[i].child, indent);
      hide EntryLines;
      Shifted(first, rest, start, |block|);
      assert (first + rest)[|first| + start] == rest[start];
    }
  }

  lemma Shifted(first: seq<string>, rest: seq<string>, start: nat, n: nat)
    requires start + n <= |rest|
    ensures (first + rest)[|first| + start..|first| + start + n] == rest[start..start + n]
    ensures (first + rest)[0..|first|] == first
  {
  }

  lemma MemberHead(key: string, child: Tree, indent: nat)
    requires Printable(child)
    ensures Member(key, child, indent) != [] && HeadLine(Member(key, child, indent)[0], key, indent)
  {
    hide Lines, LeafText, CanonicalString, Spaces;
    var head := Spaces(indent) + CanonicalString(key);
    if child.Leaf? {
      assert head + ": " + LeafText(child) == (head + ":") + (" " + LeafText(child));
    }
  }
}
