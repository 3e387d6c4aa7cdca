/**
 * The canonical layout: a value whose object members have been put in their printed order, the
 * lines it occupies, and the value it stands for.
 */
module Layout {
  import opened Prelude
  import opened CanonicalText

  /**
   * A value arranged for printing: inline values, ordered members, items.  `OwnLine` is an inline
   * value put on a line of its own below its key or dash: the printer never does this, the decoder
   * accepts it.
   */
  datatype Tree =
    | Leaf(value: Json)
    | OwnLine(value: Json)
    | Mapping(entries: seq<Entry>)
    | Sequence(items: seq<Tree>)

  datatype Entry = Entry(key: string, child: Tree)

  /** The keys are distinct and nothing but a leaf is empty. */
  ghost predicate Printable(t: Tree)
    decreases t, 1
  {
    match t
    case Leaf(value) => value.IsInline() && InlineText(value).Some?
    case OwnLine(value) => value.IsInline() && InlineText(value).Some?
    case Mapping(entries) => entries != [] && DistinctKeys(entries) && PrintableEntries(entries)
    case Sequence(items) => items != [] && PrintableItems(items)
  }

  ghost predicate PrintableEntries(entries: seq<Entry>)
    decreases entries, 0
  {
    entries != [] ==> Printable(entries[0].child) && PrintableEntries(entries[1..])
  }

  ghost predicate PrintableItems(items: seq<Tree>)
    decreases items, 0
  {
    items != [] ==> Printable(items[0]) && PrintableItems(items[1..])
  }

  ghost predicate DistinctKeys(entries: seq<Entry>) {
    forall i, j :: 0 <= i < j < |entries| ==> entries[i].key != entries[j].key
  }

  /** The value a tree stands for: the order of its members is forgotten. */
  function Erase(t: Tree): Json
    decreases t, 1
  {
    match t
    case Leaf(value) => value
    case OwnLine(value) => value
    case Mapping(entries) => Obj(EraseEntries(map[], entries))
    case Sequence(items) => Arr(EraseItems(items))
  }

  function EraseEntries(acc: map<string, Json>, entries: seq<Entry>): map<string, Json>
    decreases entries, 0
  {
    if entries == [] then acc
    else EraseEntries(acc[entries[0].key := Erase(entries[0].child)], entries[1..])
  }

  function EraseItems(items: seq<Tree>): seq<Json>
    decreases items, 0
  {
    if items == [] then [] else [Erase(items[0])] + EraseItems(items[1..])
  }

  function Spaces(n: nat): (s: string)
    ensures |s| == n
    ensures forall i :: 0 <= i < n ==> s[i] == ' '
  {
    seq(n, _ => ' ')
  }

  ghost function LeafText(t: Tree): string
    requires (t.Leaf? || t.OwnLine?) && Printable(t)
  {
    InlineText(t.value).value
  }

  /** The lines of a tree whose block structure starts at column `indent`. */
  ghost function Lines(t: Tree, indent: nat): seq<string>
    requires Printable(t)
    decreases t, 2
  {
    match t
    case Leaf(_) => [LeafText(t)]
    case OwnLine(_) => [Spaces(indent) + LeafText(t)]
    case Mapping(entries) => EntryLines(entries, indent)
    case Sequence(items) => ItemLines(items, indent)
  }

  ghost function EntryLines(entries: seq<Entry>, indent: nat): seq<string>
    requires PrintableEntries(entries)
    decreases entries, 0
  {
    if entries == [] then [] else Member(entries[0].key, entries[0].child, indent) + EntryLines(entries[1..], indent)
  }

  ghost function Member(key: string, child: Tree, indent: nat): seq<string>
    requires Printable(child)
    decreases child, 3
  {
    var head := Spaces(indent) + CanonicalString(key);
    if child.Leaf? then [head + ": " + LeafText(child)] else [head + ":"] + Lines(child, indent + 2)
  }

  ghost function ItemLines(items: seq<Tree>, indent: nat): seq<string>
    requires PrintableItems(items)
    decreases items, 0
  {
    if items == [] then [] else Item(items[0], indent) + ItemLines(items[1..], indent)
  }

  ghost function Item(child: Tree, indent: nat): seq<string>
    requires Printable(child)
    decreases child, 3
  {
    if child.Leaf? then [Spaces(indent) + "- " + LeafText(child)]
    else [Spaces(indent) + "-"] + Lines(child, indent + 2)
  }

  /** A line that the decoder admits: not empty, not padded, no control characters. */
  ghost predicate Clean(line: string) {
    line != "" && NoControls(line) && !IsWhiteSpace(line[|line| - 1])
  }

  ghost predicate AllClean(lines: seq<string>) {
    forall i :: 0 <= i < |lines| ==> Clean(lines[i])
  }

  lemma CanonicalStringHasNoControls(s: string)
    ensures NoControls(CanonicalString(s))
  {
    EscapeHasNoControls(s);
  }

  lemma {:induction false} LinesAreClean(t: Tree, indent: nat)
    requires Printable(t)
    ensures AllClean(Lines(t, indent)) && Lines(t, indent) != []
    decreases t, 2
  {
    match t
    case Leaf(value) => InlineTextShape(value);
    case OwnLine(value) => InlineTextShape(value);
    case Mapping(entries) => EntryLinesAreClean(entries, indent);
    case Sequence(items) => ItemLinesAreClean(items, indent);
  }

  lemma {:induction false} EntryLinesAreClean(entries: seq<Entry>, indent: nat)
    requires PrintableEntries(entries)
    ensures AllClean(EntryLines(entries, indent))
    ensures entries != [] ==> EntryLines(entries, indent) != []
    decreases entries, 0
  {
    if entries == [] {
    } else {
      MemberIsClean(entries[0].key, entries[0].child, indent);
      EntryLinesAreClean(entries[1..], indent);
    }
  }

  lemma {:induction false} MemberIsClean(key: string, child: Tree, indent: nat)
    requires Printable(child)
    ensures AllClean(Member(key, child, indent))
    decreases child, 3
  {
    CanonicalStringHasNoControls(key);
    LinesAreClean(child, indent + 2);
    if child.Leaf? {
      InlineTextShape(child.value);
    }
  }

  lemma {:induction false} ItemLinesAreClean(items: seq<Tree>, indent: nat)
    requires PrintableItems(items)
    ensures AllClean(ItemLines(items, indent))
    ensures items != [] ==> ItemLines(items, indent) != []
    decreases items, 0
  {
    if items == [] {
    } else {
      LinesAreClean(items[0], indent + 2);
      ItemIsClean(items[0], indent);
      ItemLinesAreClean(items[1..], indent);
    }
  }

  lemma {:induction false} ItemIsClean(child: Tree, indent: nat)
    requires Printable(child)
    ensures AllClean(Item(child, indent))
    decreases child, 3
  {
    LinesAreClean(child, indent + 2);
    if child.Leaf? {
      InlineTextShape(child.value);
    }
  }
}
