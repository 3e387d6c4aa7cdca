/** The schema-directed renderer: a value is arranged under its schema and printed in the canonical layout. */
module Renderer {
  import opened Prelude
  import opened CanonicalText
  import opened Layout
  import opened SchemaCatalog
  import opened Ordering
  import opened CodecRoundTrip

  /* ---------- arranging a value under its schema ---------- */

  function ChooseOptional(catalog: Catalog, schema: Option<Schema>, value: Json, fuel: nat): Rendered<Option<Schema>> {
    match schema
    case None => Ok(None)
    case Some(s) =>
      var chosen :- Choose(catalog, s, value, fuel);
      Ok(Some(chosen))
  }

  /** One member to print and the schema that governs it, if any. */
  datatype Planned = Planned(name: string, schema: Option<Schema>)

  ghost predicate DistinctPlan(plan: seq<Planned>) {
    forall i, j :: 0 <= i < j < |plan| ==> plan[i].name != plan[j].name
  }

  ghost predicate Plans(plan: seq<Planned>, name: string) {
    exists i :: 0 <= i < |plan| && plan[i].name == name
  }

  lemma PlansConcat(first: seq<Planned>, second: seq<Planned>)
    ensures forall name :: Plans(first + second, name) <==> Plans(first, name) || Plans(second, name)
  {
    var all := first + second;
    forall name ensures Plans(all, name) <==> Plans(first, name) || Plans(second, name) {
      if Plans(first, name) {
        var i :| 0 <= i < |first| && first[i].name == name;
        assert all[i].name == name;
      }
      if Plans(second, name) {
        var i :| 0 <= i < |second| && second[i].name == name;
        assert all[|first| + i].name == name;
      }
    }
  }

  lemma DistinctConcat(first: seq<Planned>, second: seq<Planned>)
    requires DistinctPlan(first) && DistinctPlan(second)
    requires forall name :: !(Plans(first, name) && Plans(second, name))
    ensures DistinctPlan(first + second)
  {
    var all := first + second;
    forall i, j | 0 <= i < j < |all| ensures all[i].name != all[j].name {
      if i < |first| <= j {
        assert Plans(first, all[i].name);
        assert second[j - |first|].name == all[j].name;
        assert Plans(second, all[j].name);
      }
    }
  }

  /** The declared members that are present, in schema order. */
  function DeclaredMembers(fields: seq<Field>, keys: set<string>): (plan: seq<Planned>)
    ensures DistinctNames(fields) ==> DistinctPlan(plan)
    ensures forall name :: Plans(plan, name) <==> HasField(fields, name) && name in keys
  {
    if fields == [] then [] else
    var first, rest := fields[0], DeclaredMembers(fields[1..], keys);
    var head := if first.name in keys then [Planned(first.name, Some(first.schema))] else [];
    assert forall name :: HasField(fields, name) <==> name == first.name || HasField(fields[1..], name) by {
      assert fields == [first] + fields[1..];
      assert forall i :: 1 <= i < |fields| ==> fields[i] == fields[1..][i - 1];
      assert fields[0].name == first.name;
    }
    PlansConcat(head, rest);
    assert forall name :: Plans(head, name) <==> name == first.name && name in keys by {
      assert first.name in keys ==> head[0].name == first.name;
    }
    assert DistinctNames(fields) ==> DistinctPlan(head + rest) by {
      if DistinctNames(fields) {
        DistinctConcat(head, rest);
      }
    }
    head + rest
  }

  /** The remaining members, in the order of the map, under the schema's policy for additional members. */
  function AdditionalMembers(names: seq<string>, known: set<string>, additional: Additional): (r: Rendered<seq<Planned>>)
    ensures r.Ok? && Distinct(names) ==> DistinctPlan(r.value)
    ensures r.Ok? ==> forall name :: Plans(r.value, name) <==> name in names && name !in known
  {
    if names == [] then Ok([])
    else if names[0] in known then AdditionalMembers(names[1..], known, additional)
    else if additional.Closed? then Err(ClosedSchema)
    else
      var rest :- AdditionalMembers(names[1..], known, additional);
      var head := [Planned(names[0], if additional.Governed? then Some(additional.schema) else None)];
      PlansConcat(head, rest);
      assert head[0].name == names[0];
      assert forall name :: Plans(head, name) <==> name == names[0];
      assert Distinct(names) ==> DistinctPlan(head + rest) by {
        if Distinct(names) {
          assert names[0] !in names[1..];
          DistinctConcat(head, rest);
        }
      }
      Ok(head + rest)
  }

  function PlanNames(plan: seq<Planned>): (names: set<string>)
    ensures forall name :: name in names <==> Plans(plan, name)
  {
    set i | 0 <= i < |plan| :: plan[i].name
  }

  /** Every member is planned exactly once. */
  function Plan(layout: MemberLayout, keys: set<string>): (r: Rendered<seq<Planned>>)
    requires DistinctNames(layout.fields)
    ensures r.Ok? ==> DistinctPlan(r.value)
    ensures r.Ok? ==> forall name :: Plans(r.value, name) <==> name in keys
  {
    var declared := DeclaredMembers(layout.fields, keys);
    var rest :- AdditionalMembers(SortedKeys(keys), PlanNames(declared), layout.additional);
    PlansConcat(declared, rest);
    DistinctConcat(declared, rest);
    Ok(declared + rest)
  }

  /** Every planned member is a member of the value. */
  ghost predicate Covers(value: Json, plan: seq<Planned>) {
    value.Obj? && forall i :: 0 <= i < |plan| ==> plan[i].name in value.fields
  }

  lemma PlanCovers(value: Json, plan: seq<Planned>)
    requires value.Obj? && value.fields != map[] && forall name :: Plans(plan, name) <==> name in value.fields.Keys
    ensures plan != [] && Covers(value, plan)
  {
    var name :| name in value.fields;
    assert Plans(plan, name);
    assert forall i :: 0 <= i < |plan| ==> Plans(plan, plan[i].name);
  }

  function Arrange(catalog: Catalog, value: Json, schema: Option<Schema>, fuel: nat): (r: Rendered<Tree>)
    ensures r.Ok? ==> Printable(r.value) && (r.value.Leaf? <==> value.IsInline())
    decreases value, 1
  {
    var schema :- ChooseOptional(catalog, schema, value, fuel);
    if value.IsInline() then
      if InlineText(value).Some? then Ok(Leaf(value)) else Err(UnsafeNumber)
    else if schema.None? then Err(NoGoverningSchema)
    else if value.Arr? then
      var itemSchema :- ItemsOf(catalog, schema.value);
      var items :- ArrangeItems(catalog, value.items, itemSchema, fuel);
      Ok(Sequence(items))
    else
      var layout :- LayoutOf(catalog, schema.value, fuel);
      var plan :- Plan(layout, value.fields.Keys);
      PlanCovers(value, plan);
      var entries :- ArrangeMembers(catalog, value, plan, fuel);
      Ok(Mapping(entries))
  }

  function ArrangeItems(catalog: Catalog, items: seq<Json>, schema: Schema, fuel: nat): (r: Rendered<seq<Tree>>)
    ensures r.Ok? ==> PrintableItems(r.value) && |r.value| == |items|
    decreases items, 0
  {
    if items == [] then Ok([]) else
    var first :- Arrange(catalog, items[0], Some(schema), fuel);
    var rest :- ArrangeItems(catalog, items[1..], schema, fuel);
    Ok([first] + rest)
  }

  function ArrangeMembers(catalog: Catalog, value: Json, plan: seq<Planned>, fuel: nat): (r: Rendered<seq<Entry>>)
    requires Covers(value, plan)
    ensures r.Ok? ==> PrintableEntries(r.value) && |r.value| == |plan|
    ensures r.Ok? ==> forall i :: 0 <= i < |plan| ==> r.value[i].key == plan[i].name
    decreases value, 0, |plan|
  {
    if plan == [] then Ok([]) else
    var child :- Arrange(catalog, value.fields[plan[0].name], plan[0].schema, fuel);
    var rest :- ArrangeMembers(catalog, value, plan[1..], fuel);
    Ok([Entry(plan[0].name, child)] + rest)
  }

  /** The canonical source text of a value under a selected schema. */
  ghost function Render(catalog: Catalog, selector: Selector, value: Json, fuel: nat): Rendered<string> {
    var schema :- Select(catalog, selector);
    var t :- Arrange(catalog, value, Some(schema), fuel);
    Ok(SourceText(t))
  }

  /* ---------- printing ---------- */

  /** The shared output string that every rendering function appends to. */
  class Output {
    var text: string

    constructor ()
      ensures text == ""
    {
      text := "";
    }

    method Push(s: string)
      modifies this
      ensures text == old(text) + s
    {
      text := text + s;
    }
  }

  lemma {:induction false} JoinAppend(first: seq<string>, second: seq<string>)
    requires first != [] && second != []
    ensures Join(first + second) == Join(first) + "\n" + Join(second)
  {
    var all := first + second;
    if |first| == 1 {
      assert all[1..] == second;
    } else {
      assert all[1..] == first[1..] + second;
      JoinAppend(first[1..], second);
    }
  }

  method RenderNode(catalog: Catalog, value: Json, schema: Option<Schema>, fuel: nat, indent: nat, output: Output)
    returns (r: Rendered<()>)
    modifies output
    ensures var expected := Arrange(catalog, value, schema, fuel);
            if expected.Err? then r == Err(expected.error)
            else r == Ok(()) && output.text == old(output.text) + Join(Lines(expected.value, indent))
    decreases value, 1
  {
    hide Printable, ArrangeItems, ArrangeMembers, Plan, ItemsOf, LayoutOf, ChooseOptional, Join;
    var schema :- ChooseOptional(catalog, schema, value, fuel);
    if value.IsInline() {
      match InlineText(value) {
        case None => return Err(UnsafeNumber);
        case Some(text) =>
          output.Push(text);
          LeafJoin(value, indent);
      }
      return Ok(());
    }
    if schema.None? {
      return Err(NoGoverningSchema);
    }
    if value.Arr? {
      var itemSchema :- ItemsOf(catalog, schema.value);
      r := RenderItems(catalog, value.items, itemSchema, fuel, indent, output);
    } else {
      var layout :- LayoutOf(catalog, schema.value, fuel);
      var plan :- Plan(layout, value.fields.Keys);
      PlanCovers(value, plan);
      r := RenderMembers(catalog, value, plan, fuel, indent, output);
    }
  }

  lemma LeafJoin(value: Json, indent: nat)
    requires value.IsInline() && InlineText(value).Some?
    ensures Join(Lines(Leaf(value), indent)) == InlineText(value).value
  {
  }

  /** `items[..i]` are arranged as `done`; the rest must still be arranged. */
  ghost predicate ItemsSoFar(
      catalog: Catalog, items: seq<Json>, i: nat, schema: Schema, fuel: nat, done: seq<Tree>)
    requires i <= |items|
  {
    PrintableItems(done) && |done| == i &&
    var whole := ArrangeItems(catalog, items, schema, fuel);
    var rest := ArrangeItems(catalog, items[i..], schema, fuel);
    if rest.Err? then whole == Err(rest.error) else whole == Ok(done + rest.value)
  }

  /** What one item adds to the output. */
  ghost function ItemText(first: bool, t: Tree, indent: nat): string
    requires Printable(t)
  {
    (if first then "" else "\n") + Spaces(indent)
    + (if t.Leaf? then "- " + LeafText(t) else "-\n" + Join(Lines(t, indent + 2)))
  }

  method RenderItem(
      catalog: Catalog, value: Json, schema: Schema, fuel: nat, first: bool, indent: nat, output: Output)
    returns (r: Rendered<()>)
    modifies output
    ensures var expected := Arrange(catalog, value, Some(schema), fuel);
            if expected.Err? then r == Err(expected.error)
            else r == Ok(()) && output.text == old(output.text) + ItemText(first, expected.value, indent)
    decreases value, 2
  {
    hide Arrange, Printable, Spaces, Lines, Join;
    ghost var before, expected := output.text, Arrange(catalog, value, Some(schema), fuel);
    if !first {
      output.Push("\n");
    }
    output.Push(Spaces(indent));
    assert output.text == before + (if first then "" else "\n") + Spaces(indent) by {
      assert before + "" == before;
    }
    if value.IsInline() {
      output.Push("- ");
      r := RenderNode(catalog, value, Some(schema), fuel, indent, output);
    } else {
      output.Push("-");
      output.Push("\n");
      r := RenderNode(catalog, value, Some(schema), fuel, indent + 2, output);
    }
    if r.Ok? {
      ItemPushed(before, first, expected.value, indent);
    }
  }

  lemma ItemPushed(before: string, first: bool, t: Tree, indent: nat)
    requires Printable(t)
    ensures var head := before + (if first then "" else "\n") + Spaces(indent);
            && (t.Leaf? ==> before + ItemText(first, t, indent) == head + "- " + Join(Lines(t, indent)))
            && (!t.Leaf? ==> before + ItemText(first, t, indent) == head + "-" + "\n" + Join(Lines(t, indent + 2)))
  {
    hide Spaces, LeafText;
    var prefix := (if first then "" else "\n") + Spaces(indent);
    if t.Leaf? {
      Reassociate(before, prefix, "- " + LeafText(t));
    } else {
      Reassociate(before, prefix, "-\n" + Join(Lines(t, indent + 2)));
    }
  }

  method RenderItems(catalog: Catalog, items: seq<Json>, schema: Schema, fuel: nat, indent: nat, output: Output)
    returns (r: Rendered<()>)
    modifies output
    ensures var expected := ArrangeItems(catalog, items, schema, fuel);
            if expected.Err? then r == Err(expected.error)
            else r == Ok(()) && output.text == old(output.text) + Join(ItemLines(expected.value, indent))
    decreases items, 0
  {
    hide Join, ItemLines, ItemText;
    ghost var done: seq<Tree> := [];
    ghost var before := output.text;
    NoItemsYet(catalog, items, schema, fuel, indent);
    assert before + "" == before;
    for i := 0 to |items|
      invariant ItemsSoFar(catalog, items, i, schema, fuel, done)
      invariant output.text == before + Join(ItemLines(done, indent))
    {
      hide Arrange, ArrangeItems, ItemsSoFar;
      ghost var child := Arrange(catalog, items[i], Some(schema), fuel);
      ghost var text := output.text;
      ItemsStep(catalog, items, i, schema, fuel, done);
      var _ :- RenderItem(catalog, items[i], schema, fuel, i == 0, indent, output);
      ItemPrinted(done, child.value, indent);
      Reassociate(before, Join(ItemLines(done, indent)), ItemText(i == 0, child.value, indent));
      done := done + [child.value];
    }
    AllItemsDone(catalog, items, schema, fuel, done);
    return Ok(());
  }

  lemma Reassociate<T>(a: seq<T>, b: seq<T>, c: seq<T>)
    ensures (a + b) + c == a + (b + c)
  {
  }

  lemma NoItemsYet(catalog: Catalog, items: seq<Json>, schema: Schema, fuel: nat, indent: nat)
    ensures ItemsSoFar(catalog, items, 0, schema, fuel, [])
    ensures Join(ItemLines([], indent)) == ""
  {
    hide ArrangeItems;
    var rest := ArrangeItems(catalog, items, schema, fuel);
    assert items[0..] == items;
    if rest.Ok? {
      assert [] + rest.value == rest.value;
    }
  }

  lemma AllItemsDone(catalog: Catalog, items: seq<Json>, schema: Schema, fuel: nat, done: seq<Tree>)
    requires ItemsSoFar(catalog, items, |items|, schema, fuel, done)
    ensures ArrangeItems(catalog, items, schema, fuel) == Ok(done)
  {
    assert items[|items|..] == [];
    assert done + [] == done;
  }

  lemma ArrangeItemsFrom(catalog: Catalog, items: seq<Json>, i: nat, schema: Schema, fuel: nat)
    requires i < |items|
    ensures var child := Arrange(catalog, items[i], Some(schema), fuel);
            var rest := ArrangeItems(catalog, items[i + 1..], schema, fuel);
            ArrangeItems(catalog, items[i..], schema, fuel) ==
            (if child.Err? then Err(child.error)
             else if rest.Err? then Err(rest.error)
             else Ok([child.value] + rest.value))
  {
    hide Arrange, Printable, PrintableItems;
    assert items[i..][1..] == items[i + 1..];
  }

  lemma ItemsStep(catalog: Catalog, items: seq<Json>, i: nat, schema: Schema, fuel: nat, done: seq<Tree>)
    requires i < |items| && ItemsSoFar(catalog, items, i, schema, fuel, done)
    ensures |done| == i
    ensures var child := Arrange(catalog, items[i], Some(schema), fuel);
            if child.Err? then ArrangeItems(catalog, items, schema, fuel) == Err(child.error)
            else (PrintableItems(done) && ItemsSoFar(catalog, items, i + 1, schema, fuel, done + [child.value]))
  {
    hide Arrange, ArrangeItems, Printable, PrintableItems;
    var child := Arrange(catalog, items[i], Some(schema), fuel);
    ArrangeItemsFrom(catalog, items, i, schema, fuel);
    if child.Ok? {
      PrintableItemsAppend(done, child.value);
      var rest := ArrangeItems(catalog, items[i + 1..], schema, fuel);
      if rest.Ok? {
        Reassociate(done, [child.value], rest.value);
      }
    }
  }

  lemma {:induction false} PrintableItemsAppend(items: seq<Tree>, t: Tree)
    requires PrintableItems(items) && Printable(t)
    ensures PrintableItems(items + [t])
  {
    if items != [] {
      assert (items + [t])[1..] == items[1..] + [t];
      PrintableItemsAppend(items[1..], t);
    }
  }

  lemma {:induction false} ItemLinesAppend(items: seq<Tree>, t: Tree, indent: nat)
    requires PrintableItems(items) && Printable(t)
    ensures PrintableItems(items + [t])
    ensures ItemLines(items + [t], indent) == ItemLines(items, indent) + Item(t, indent)
  {
    PrintableItemsAppend(items, t);
    if items == [] {
      assert ItemLines([t][1..], indent) == [];
    } else {
      assert (items + [t])[1..] == items[1..] + [t];
      ItemLinesAppend(items[1..], t, indent);
    }
  }

  lemma ItemPrinted(done: seq<Tree>, t: Tree, indent: nat)
    requires PrintableItems(done) && Printable(t)
    ensures PrintableItems(done + [t])
    ensures Join(ItemLines(done + [t], indent)) == Join(ItemLines(done, indent)) + ItemText(done == [], t, indent)
  {
    hide Printable, PrintableItems, Lines, ItemLines, LeafText;
    ItemLinesAppend(done, t, indent);
    ItemLinesAreClean(done, indent);
    ItemBlockText(t, indent);
    if done != [] {
      JoinAppend(ItemLines(done, indent), Item(t, indent));
    } else {
      assert ItemLines(done, indent) == [] by { NoItemsLines(indent); }
      assert [] + Item(t, indent) == Item(t, indent);
    }
  }

  lemma NoItemsLines(indent: nat)
    ensures ItemLines([], indent) == []
  {
  }

  lemma ItemBlockText(t: Tree, indent: nat)
    requires Printable(t)
    ensures Item(t, indent) != [] && Join(Item(t, indent)) == ItemText(true, t, indent)
  {
    hide Printable, Lines, LeafText;
    if t.Leaf? {
      assert Spaces(indent) + ("- " + LeafText(t)) == Spaces(indent) + "- " + LeafText(t);
    } else {
      LinesAreClean(t, indent + 2);
      JoinAppend([Spaces(indent) + "-"], Lines(t, indent + 2));
    }
  }

  /** `plan[..i]` is arranged as `done`; the rest must still be arranged. */
  ghost predicate MembersSoFar(
      catalog: Catalog, value: Json, plan: seq<Planned>, i: nat, fuel: nat, done: seq<Entry>)
    requires i <= |plan| && Covers(value, plan)
  {
    PrintableEntries(done) && |done| == i &&
    var whole := ArrangeMembers(catalog, value, plan, fuel);
    var rest := ArrangeMembers(catalog, value, plan[i..], fuel);
    if rest.Err? then whole == Err(rest.error) else whole == Ok(done + rest.value)
  }

  /** What one member adds to the output. */
  ghost function MemberText(first: bool, key: string, t: Tree, indent: nat): string
    requires Printable(t)
  {
    (if first then "" else "\n") + Spaces(indent) + CanonicalString(key)
    + (if t.Leaf? then ": " + LeafText(t) else ":\n" + Join(Lines(t, indent + 2)))
  }

  method RenderMember(
      catalog: Catalog, child: Json, member: Planned, fuel: nat, first: bool, indent: nat, output: Output)
    returns (r: Rendered<()>)
    modifies output
    ensures var expected := Arrange(catalog, child, member.schema, fuel);
            if expected.Err? then r == Err(expected.error)
            else r == Ok(()) && output.text == old(output.text) + MemberText(first, member.name, expected.value, indent)
    decreases child, 2
  {
    hide Arrange, Printable, Spaces, CanonicalString, Lines, Join;
    ghost var before, expected := output.text, Arrange(catalog, child, member.schema, fuel);
    if !first {
      output.Push("\n");
    }
    output.Push(Spaces(indent));
    output.Push(CanonicalString(member.name));
    ghost var head := output.text;
    assert head == before + (if first then "" else "\n") + Spaces(indent) + CanonicalString(member.name) by {
      assert before + "" == before;
    }
    if child.IsInline() {
      output.Push(": ");
      r := RenderNode(catalog, child, member.schema, fuel, indent, output);
    } else {
      output.Push(":\n");
      r := RenderNode(catalog, child, member.schema, fuel, indent + 2, output);
    }
    if r.Ok? {
      MemberPushed(before, first, member.name, expected.value, indent);
    }
  }

  lemma MemberPushed(before: string, first: bool, key: string, t: Tree, indent: nat)
    requires Printable(t)
    ensures var head := before + (if first then "" else "\n") + Spaces(indent) + CanonicalString(key);
            && (t.Leaf? ==> before + MemberText(first, key, t, indent) == head + ": " + Join(Lines(t, indent)))
            && (!t.Leaf? ==> before + MemberText(first, key, t, indent) == head + ":\n" + Join(Lines(t, indent + 2)))
  {
    hide Spaces, CanonicalString, LeafText;
    var prefix := (if first then "" else "\n") + Spaces(indent) + CanonicalString(key);
    if t.Leaf? {
      Reassociate(before, prefix, ": " + LeafText(t));
    } else {
      Reassociate(before, prefix, ":\n" + Join(Lines(t, indent + 2)));
    }
  }

  method RenderMembers(catalog: Catalog, value: Json, plan: seq<Planned>, fuel: nat, indent: nat, output: Output)
    returns (r: Rendered<()>)
    requires Covers(value, plan)
    modifies output
    ensures var expected := ArrangeMembers(catalog, value, plan, fuel);
            if expected.Err? then r == Err(expected.error)
            else r == Ok(()) && output.text == old(output.text) + Join(EntryLines(expected.value, indent))
    decreases value, 0
  {
    hide Arrange, ArrangeMembers, MembersSoFar, Printable, PrintableEntries, Printed, MemberText, Join, EntryLines;
    ghost var done: seq<Entry> := [];
    ghost var before := output.text;
    NoMembersYet(catalog, value, plan, fuel, before, indent);
    for i := 0 to |plan|
      invariant MembersSoFar(catalog, value, plan, i, fuel, done) && PrintableEntries(done)
      invariant output.text == Printed(before, done, indent)
    {
      var member := plan[i];
      var child := value.fields[member.name];
      ghost var arranged := Arrange(catalog, child, member.schema, fuel);
      MembersStep(catalog, value, plan, i, fuel, done);
      var _ :- RenderMember(catalog, child, member, fuel, i == 0, indent, output);
      MemberAppended(before, done, member.name, arranged.value, indent);
      done := done + [Entry(member.name, arranged.value)];
    }
    AllMembersDone(catalog, value, plan, fuel, before, done, indent);
    return Ok(());
  }

  lemma NoMembersYet(catalog: Catalog, value: Json, plan: seq<Planned>, fuel: nat, before: string, indent: nat)
    requires Covers(value, plan)
    ensures MembersSoFar(catalog, value, plan, 0, fuel, []) && PrintableEntries([])
    ensures Printed(before, [], indent) == before
  {
    assert before + "" == before;
    hide ArrangeMembers;
    var rest := ArrangeMembers(catalog, value, plan, fuel);
    assert plan[0..] == plan;
    if rest.Ok? {
      assert [] + rest.value == rest.value;
    }
  }

  lemma AllMembersDone(
      catalog: Catalog, value: Json, plan: seq<Planned>, fuel: nat, before: string, done: seq<Entry>, indent: nat)
    requires Covers(value, plan) && MembersSoFar(catalog, value, plan, |plan|, fuel, done)
    ensures ArrangeMembers(catalog, value, plan, fuel) == Ok(done) && PrintableEntries(done)
    ensures Printed(before, done, indent) == before + Join(EntryLines(done, indent))
  {
    assert plan[|plan|..] == [];
    assert done + [] == done;
  }

  lemma ArrangeMembersFrom(catalog: Catalog, value: Json, plan: seq<Planned>, i: nat, fuel: nat)
    requires Covers(value, plan) && i < |plan|
    ensures var child := Arrange(catalog, value.fields[plan[i].name], plan[i].schema, fuel);
            var rest := ArrangeMembers(catalog, value, plan[i + 1..], fuel);
            ArrangeMembers(catalog, value, plan[i..], fuel) ==
            (if child.Err? then Err(child.error)
             else if rest.Err? then Err(rest.error)
             else Ok([Entry(plan[i].name, child.value)] + rest.value))
  {
    hide Arrange, Printable, PrintableEntries;
    assert plan[i..][1..] == plan[i + 1..];
  }

  lemma MembersStep(catalog: Catalog, value: Json, plan: seq<Planned>, i: nat, fuel: nat, done: seq<Entry>)
    requires i < |plan| && Covers(value, plan)
    requires MembersSoFar(catalog, value, plan, i, fuel, done)
    ensures |done| == i
    ensures var child := Arrange(catalog, value.fields[plan[i].name], plan[i].schema, fuel);
            if child.Err? then ArrangeMembers(catalog, value, plan, fuel) == Err(child.error)
            else (PrintableEntries(done)
                  && MembersSoFar(catalog, value, plan, i + 1, fuel, done + [Entry(plan[i].name, child.value)]))
  {
    hide Arrange, ArrangeMembers, Printable, PrintableEntries;
    var child := Arrange(catalog, value.fields[plan[i].name], plan[i].schema, fuel);
    ArrangeMembersFrom(catalog, value, plan, i, fuel);
    if child.Ok? {
      var entry := Entry(plan[i].name, child.value);
      PrintableEntriesAppend(done, entry);
      var rest := ArrangeMembers(catalog, value, plan[i + 1..], fuel);
      if rest.Ok? {
        Reassociate(done, [entry], rest.value);
      }
    }
  }

  lemma {:induction false} PrintableEntriesAppend(entries: seq<Entry>, e: Entry)
    requires PrintableEntries(entries) && Printable(e.child)
    ensures PrintableEntries(entries + [e])
  {
    if entries != [] {
      assert (entries + [e])[1..] == entries[1..] + [e];
      PrintableEntriesAppend(entries[1..], e);
    }
  }

  lemma {:induction false} EntryLinesAppend(entries: seq<Entry>, e: Entry, indent: nat)
    requires PrintableEntries(entries) && Printable(e.child)
    ensures PrintableEntries(entries + [e])
    ensures EntryLines(entries + [e], indent) == EntryLines(entries, indent) + Member(e.key, e.child, indent)
  {
    PrintableEntriesAppend(entries, e);
    if entries == [] {
      assert EntryLines([e][1..], indent) == [];
    } else {
      assert (entries + [e])[1..] == entries[1..] + [e];
      EntryLinesAppend(entries[1..], e, indent);
    }
  }

  /** The output with the members printed so far. */
  ghost function Printed(before: string, done: seq<Entry>, indent: nat): string
    requires PrintableEntries(done)
  {
    before + Join(EntryLines(done, indent))
  }

  lemma MemberAppended(before: string, done: seq<Entry>, key: string, t: Tree, indent: nat)
    requires PrintableEntries(done) && Printable(t)
    ensures PrintableEntries(done + [Entry(key, t)])
    ensures Printed(before, done, indent) + MemberText(done == [], key, t, indent) == Printed(before, done + [Entry(key, t)], indent)
  {
    hide Printable, PrintableEntries, EntryLines, Join, MemberText;
    MemberPrinted(done, key, t, indent);
    Reassociate(before, Join(EntryLines(done, indent)), MemberText(done == [], key, t, indent));
  }

  lemma MemberPrinted(done: seq<Entry>, key: string, t: Tree, indent: nat)
    requires PrintableEntries(done) && Printable(t)
    ensures PrintableEntries(done + [Entry(key, t)])
    ensures Join(EntryLines(done + [Entry(key, t)], indent))
         == Join(EntryLines(done, indent)) + MemberText(done == [], key, t, indent)
  {
    hide Printable, PrintableEntries, Lines, EntryLines, LeafText, CanonicalString;
    EntryLinesAppend(done, Entry(key, t), indent);
    EntryLinesAreClean(done, indent);
    MemberBlockText(key, t, indent);
    if done != [] {
      JoinAppend(EntryLines(done, indent), Member(key, t, indent));
    } else {
      assert EntryLines(done, indent) == [] by { NoEntryLines(indent); }
      assert [] + Member(key, t, indent) == Member(key, t, indent);
    }
  }

  lemma NoEntryLines(indent: nat)
    ensures EntryLines([], indent) == []
  {
  }

  lemma MemberBlockText(key: string, t: Tree, indent: nat)
    requires Printable(t)
    ensures Member(key, t, indent) != [] && Join(Member(key, t, indent)) == MemberText(true, key, t, indent)
  {
    hide Printable, Lines, LeafText, CanonicalString;
    var head := Spaces(indent) + CanonicalString(key);
    if t.Leaf? {
      assert head + (": " + LeafText(t)) == head + ": " + LeafText(t);
    } else {
      LinesAreClean(t, indent + 2);
      JoinAppend([head + ":"], Lines(t, indent + 2));
    }
  }

  method RenderSource(catalog: Catalog, selector: Selector, value: Json, fuel: nat) returns (r: Rendered<string>)
    ensures r == Render(catalog, selector, value, fuel)
  {
    var schema :- Select(catalog, selector);
    var output := new Output();
    hide Arrange, Join, Lines;
    ghost var t := Arrange(catalog, value, Some(schema), fuel);
    var _ :- RenderNode(catalog, value, Some(schema), fuel, 0, output);
    assert "" + Join(Lines(t.value, 0)) == Join(Lines(t.value, 0));
    output.Push("\n");
    return Ok(output.text);
  }
}
