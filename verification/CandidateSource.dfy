/**
 * Candidate source artifacts: what rendering and decoding promise each other, sealing, and the
 * acceptance of sealed artifacts.
 */
module CandidateSource {
  import opened Prelude
  import opened CanonicalText
  import opened Layout
  import opened SchemaCatalog
  import opened Renderer
  import opened CodecRoundTrip
  import CanonicalYaml

  /* ---------- the renderer keeps the value ---------- */

  /** No leaf is on a line of its own: the layouts that the printer produces. */
  ghost predicate Tight(t: Tree)
    decreases t, 1
  {
    match t
    case Leaf(_) => true
    case OwnLine(_) => false
    case Mapping(entries) => TightEntries(entries)
    case Sequence(items) => TightItems(items)
  }

  ghost predicate TightEntries(entries: seq<Entry>)
    decreases entries, 0
  {
    entries != [] ==> Tight(entries[0].child) && TightEntries(entries[1..])
  }

  ghost predicate TightItems(items: seq<Tree>)
    decreases items, 0
  {
    items != [] ==> Tight(items[0]) && TightItems(items[1..])
  }

  /** Arranging a value reorders its members and does nothing else to it. */
  lemma {:induction false} ArrangeErases(catalog: Catalog, value: Json, schema: Option<Schema>, fuel: nat)
    requires Arrange(catalog, value, schema, fuel).Ok?
    ensures var t := Arrange(catalog, value, schema, fuel).value; Erase(t) == value && Tight(t)
    decreases value, 1
  {
    hide Plan, LayoutOf, ItemsOf, ChooseOptional, InlineText, Printable;
    if value.IsInline() {
    } else {
      var chosen := ChooseOptional(catalog, schema, value, fuel).value.value;
      if value.Arr? {
        ArrangeItemsErases(catalog, value.items, ItemsOf(catalog, chosen).value, fuel);
      } else {
        var plan := Plan(LayoutOf(catalog, chosen, fuel).value, value.fields.Keys).value;
        PlanCovers(value, plan);
        ArrangeMembersErases(catalog, value, plan, fuel, map[]);
        Everything(value.fields, plan);
      }
    }
  }

  lemma {:induction false} ArrangeItemsErases(catalog: Catalog, items: seq<Json>, schema: Schema, fuel: nat)
    requires ArrangeItems(catalog, items, schema, fuel).Ok?
    ensures var r := ArrangeItems(catalog, items, schema, fuel).value; EraseItems(r) == items && TightItems(r)
    decreases items, 0
  {
    if items == [] {
    } else {
      hide Arrange, Erase;
      ArrangeErases(catalog, items[0], Some(schema), fuel);
      ArrangeItemsErases(catalog, items[1..], schema, fuel);
      assert items == [items[0]] + items[1..];
    }
  }

  /** The members named by a plan, added to `acc` in the order of the plan. */
  ghost function Pick(fields: map<string, Json>, plan: seq<Planned>, acc: map<string, Json>): map<string, Json>
    requires forall i :: 0 <= i < |plan| ==> plan[i].name in fields
  {
    if plan == [] then acc else Pick(fields, plan[1..], acc[plan[0].name := fields[plan[0].name]])
  }

  lemma {:induction false} ArrangeMembersErases(
      catalog: Catalog, value: Json, plan: seq<Planned>, fuel: nat, acc: map<string, Json>)
    requires Covers(value, plan) && ArrangeMembers(catalog, value, plan, fuel).Ok?
    ensures var entries := ArrangeMembers(catalog, value, plan, fuel).value;
            EraseEntries(acc, entries) == Pick(value.fields, plan, acc) && TightEntries(entries)
    decreases value, 0, |plan|
  {
    if plan == [] {
    } else {
      hide Arrange, Erase;
      var child := value.fields[plan[0].name];
      ArrangeErases(catalog, child, plan[0].schema, fuel);
      ArrangeMembersErases(catalog, value, plan[1..], fuel, acc[plan[0].name := child]);
    }
  }

  lemma {:induction false} PickedMembers(fields: map<string, Json>, plan: seq<Planned>, acc: map<string, Json>)
    requires forall i :: 0 <= i < |plan| ==> plan[i].name in fields
    requires forall name :: name in acc ==> name in fields && acc[name] == fields[name]
    ensures forall name :: name in Pick(fields, plan, acc) <==> name in acc || Plans(plan, name)
    ensures forall name :: name in Pick(fields, plan, acc) ==> name in fields && Pick(fields, plan, acc)[name] == fields[name]
  {
    if plan == [] {
    } else {
      PickedMembers(fields, plan[1..], acc[plan[0].name := fields[plan[0].name]]);
      PlansConcat([plan[0]], plan[1..]);
      assert [plan[0]] + plan[1..] == plan && [plan[0]][0] == plan[0];
    }
  }

  lemma Everything(fields: map<string, Json>, plan: seq<Planned>)
    requires forall name :: Plans(plan, name) <==> name in fields.Keys
    requires forall i :: 0 <= i < |plan| ==> plan[i].name in fields
    ensures Pick(fields, plan, map[]) == fields
  {
    PickedMembers(fields, plan, map[]);
  }

  /**
   * The central law of the codec: whatever the schema, the nesting, the member order and the
   * characters involved, decoding a rendered source returns the rendered value.
   */
  lemma RenderThenDecode(catalog: Catalog, selector: Selector, value: Json, fuel: nat)
    requires Render(catalog, selector, value, fuel).Ok?
    ensures CanonicalYaml.Decode(Render(catalog, selector, value, fuel).value) == Ok(value)
  {
    hide Arrange, SourceText, CanonicalYaml.Decode;
    var schema := Select(catalog, selector).value;
    ArrangeErases(catalog, value, Some(schema), fuel);
    DecodeUndoesLayout(Arrange(catalog, value, Some(schema), fuel).value);
  }

  /** A source text belongs to one value, even across selectors. */
  lemma SourceDeterminesValue(catalog: Catalog, s1: Selector, v1: Json, s2: Selector, v2: Json, fuel: nat)
    requires Render(catalog, s1, v1, fuel).Ok? && Render(catalog, s1, v1, fuel) == Render(catalog, s2, v2, fuel)
    ensures v1 == v2
  {
    RenderThenDecode(catalog, s1, v1, fuel);
    RenderThenDecode(catalog, s2, v2, fuel);
  }

  /* ---------- fuel ---------- */

  lemma {:induction false} ChooseFuel(catalog: Catalog, schema: Schema, value: Json, fuel: nat, more: nat)
    requires fuel <= more && Choose(catalog, schema, value, fuel) != Err(Diverges)
    ensures Choose(catalog, schema, value, more) == Choose(catalog, schema, value, fuel)
    decreases fuel, 0
  {
    hide Dereference, Variants;
    var d := Dereference(catalog, schema);
    if d.Ok? && !value.Null? && Variants(d.value).Some? {
      var variants := Variants(d.value).value;
      AcceptingFuel(catalog, d.value.resource, variants, value, fuel - 1, more - 1);
      var matches := Accepting(catalog, d.value.resource, variants, value, fuel - 1);
      if matches.Ok? && |matches.value| == 1 {
        ChooseFuel(catalog, matches.value[0], value, fuel - 1, more - 1);
      }
    }
  }

  lemma {:induction false} AcceptingFuel(
      catalog: Catalog, resource: string, variants: seq<OrderedValue>, value: Json, fuel: nat, more: nat)
    requires fuel <= more && Accepting(catalog, resource, variants, value, fuel) != Err(Diverges)
    ensures Accepting(catalog, resource, variants, value, more) == Accepting(catalog, resource, variants, value, fuel)
    decreases fuel, 2, |variants|
  {
    hide Accepts;
    if variants != [] {
      AcceptsFuel(catalog, Schema(resource, variants[0]), value, fuel, more);
      if Accepts(catalog, Schema(resource, variants[0]), value, fuel).Ok? {
        AcceptingFuel(catalog, resource, variants[1..], value, fuel, more);
      }
    }
  }

  lemma {:induction false} AcceptsFuel(catalog: Catalog, schema: Schema, value: Json, fuel: nat, more: nat)
    requires fuel <= more && Accepts(catalog, schema, value, fuel) != Err(Diverges)
    ensures Accepts(catalog, schema, value, more) == Accepts(catalog, schema, value, fuel)
    decreases fuel, 1
  {
    hide Dereference, Choose;
    var d := Dereference(catalog, schema);
    if d.Ok? && Choose(catalog, d.value, value, fuel) != Err(Diverges) {
      ChooseFuel(catalog, d.value, value, fuel, more);
    }
  }

  lemma {:induction false} CollectLayoutFuel(catalog: Catalog, schema: Schema, acc: MemberLayout, fuel: nat, more: nat)
    requires fuel <= more && CollectLayout(catalog, schema, acc, fuel) != Err(Diverges)
    ensures CollectLayout(catalog, schema, acc, more) == CollectLayout(catalog, schema, acc, fuel)
    decreases fuel, 0
  {
    hide Dereference, AddProperties, AdditionalOf, AllOf;
    var d := Dereference(catalog, schema);
    if d.Ok? {
      var fields := AddProperties(acc.fields, d.value.resource, PropertiesOf(d.value));
      var additional := AdditionalOf(d.value, acc.additional);
      if additional.Ok? {
        var next := MemberLayout(fields, additional.value);
        CollectAllFuel(catalog, d.value.resource, AllOf(d.value), next, fuel - 1, more - 1);
      }
    }
  }

  lemma {:induction false} CollectAllFuel(
      catalog: Catalog, resource: string, parts: seq<OrderedValue>, acc: MemberLayout, fuel: nat, more: nat)
    requires fuel <= more && CollectAll(catalog, resource, parts, acc, fuel) != Err(Diverges)
    ensures CollectAll(catalog, resource, parts, acc, more) == CollectAll(catalog, resource, parts, acc, fuel)
    decreases fuel, 1, |parts|
  {
    hide CollectLayout;
    if parts != [] {
      var first := Schema(resource, parts[0]);
      CollectLayoutFuel(catalog, first, acc, fuel, more);
      var next := CollectLayout(catalog, first, acc, fuel);
      if next.Ok? {
        CollectAllFuel(catalog, resource, parts[1..], next.value, fuel, more);
      }
    }
  }

  /** A result other than divergence does not depend on the bound: more fuel gives the same tree or error. */
  lemma {:induction false} ArrangeFuel(catalog: Catalog, value: Json, schema: Option<Schema>, fuel: nat, more: nat)
    requires fuel <= more && Arrange(catalog, value, schema, fuel) != Err(Diverges)
    ensures Arrange(catalog, value, schema, more) == Arrange(catalog, value, schema, fuel)
    decreases value, 1
  {
    hide Choose, CollectLayout, Plan, ItemsOf, InlineText, Printable, Dereference;
    if schema.Some? {
      ChooseFuel(catalog, schema.value, value, fuel, more);
      var chosen := Choose(catalog, schema.value, value, fuel);
      if chosen.Ok? && value.Arr? && ItemsOf(catalog, chosen.value).Ok? && !value.IsInline() {
        ArrangeItemsFuel(catalog, value.items, ItemsOf(catalog, chosen.value).value, fuel, more);
      } else if chosen.Ok? && value.Obj? && !value.IsInline() {
        var d := Dereference(catalog, chosen.value);
        if d.Ok? {
          CollectLayoutFuel(catalog, d.value, MemberLayout([], Closed), fuel, more);
          var layout := LayoutOf(catalog, chosen.value, fuel);
          if layout.Ok? && Plan(layout.value, value.fields.Keys).Ok? {
            var plan := Plan(layout.value, value.fields.Keys).value;
            PlanCovers(value, plan);
            ArrangeMembersFuel(catalog, value, plan, fuel, more);
          }
        }
      }
    }
  }

  lemma {:induction false} ArrangeItemsFuel(catalog: Catalog, items: seq<Json>, schema: Schema, fuel: nat, more: nat)
    requires fuel <= more && ArrangeItems(catalog, items, schema, fuel) != Err(Diverges)
    ensures ArrangeItems(catalog, items, schema, more) == ArrangeItems(catalog, items, schema, fuel)
    decreases items, 0
  {
    hide Arrange;
    if items != [] {
      ArrangeFuel(catalog, items[0], Some(schema), fuel, more);
      if Arrange(catalog, items[0], Some(schema), fuel).Ok? {
        ArrangeItemsFuel(catalog, items[1..], schema, fuel, more);
      }
    }
  }

  lemma {:induction false} ArrangeMembersFuel(catalog: Catalog, value: Json, plan: seq<Planned>, fuel: nat, more: nat)
    requires fuel <= more && Covers(value, plan) && ArrangeMembers(catalog, value, plan, fuel) != Err(Diverges)
    ensures ArrangeMembers(catalog, value, plan, more) == ArrangeMembers(catalog, value, plan, fuel)
    decreases value, 0, |plan|
  {
    hide Arrange;
    if plan != [] {
      var child := value.fields[plan[0].name];
      ArrangeFuel(catalog, child, plan[0].schema, fuel, more);
      if Arrange(catalog, child, plan[0].schema, fuel).Ok? {
        ArrangeMembersFuel(catalog, value, plan[1..], fuel, more);
      }
    }
  }
}
