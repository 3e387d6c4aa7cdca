/** The decoder undoes the canonical layout. */
module CodecRoundTrip {
  import opened Prelude
  import opened CanonicalText
  import opened Layout
  import opened CanonicalYaml
  import opened Strings

  /* ---------- one line ---------- */

  lemma QuoteAfterPlain(s: string, i: nat)
    requires i < |s| && s[i] != '"' && s[i] != '\\' && s[i] >= ' '
    ensures ClosingQuote(s[i..]) == Advance(ClosingQuote(s[i + 1..]), 1)
  {
    assert s[i..][1..] == s[i + 1..];
  }

  lemma QuoteAfterPair(s: string)
    requires |s| >= 2 && s[0] == '\\'
    ensures ClosingQuote(s) == Advance(ClosingQuote(s[2..]), 2)
  {
  }

  lemma QuoteAfterUnit(s: string)
    requires |s| >= 6 && s[0] == '\\'
    requires forall i :: 2 <= i < 6 ==> s[i] != '"' && s[i] != '\\' && s[i] >= ' '
    ensures ClosingQuote(s) == Advance(ClosingQuote(s[6..]), 6)
  {
    hide ClosingQuote;
    QuoteAfterPair(s);
    QuoteAfterPlain(s, 2);
    QuoteAfterPlain(s, 3);
    QuoteAfterPlain(s, 4);
    QuoteAfterPlain(s, 5);
  }

  lemma QuoteAfterEscapeChar(c: char, tail: string)
    ensures ClosingQuote(EscapeChar(c) + tail) == Advance(ClosingQuote(tail), |EscapeChar(c)|)
  {
    hide ClosingQuote;
    var unit := EscapeChar(c);
    var s := unit + tail;
    assert s[|unit|..] == tail;
    if |unit| == 1 {
      assert unit == [c];
      assert s[0..] == s;
      QuoteAfterPlain(s, 0);
    } else if |unit| == 2 {
      QuoteAfterPair(s);
    } else {
      assert forall i :: 0 <= i < 6 ==> s[i] == unit[i];
      QuoteAfterUnit(s);
    }
  }

  lemma {:induction false} QuoteAfterEscape(s: string, tail: string)
    ensures ClosingQuote(Escape(s) + "\"" + tail) == Some(|Escape(s)|)
  {
    if s == "" {
    } else {
      hide ClosingQuote, EscapeChar;
      var rest := Escape(s[1..]) + "\"" + tail;
      assert Escape(s) + "\"" + tail == EscapeChar(s[0]) + rest;
      QuoteAfterEscapeChar(s[0], rest);
      QuoteAfterEscape(s[1..], tail);
    }
  }

  /** A canonically quoted key followed by its separator reads back as that key. */
  lemma KeyReads(key: string, tail: string)
    requires tail == "" || (|tail| >= 2 && tail[0] == ' ' && tail[1] != ' ')
    ensures var line := CanonicalString(key) + ":" + tail;
            KeyAt(line) == Ok((key, if tail == "" then "" else tail[1..])) && IsMappingLine(line) && line[0] == '"'
  {
    hide ClosingQuote, Unescape, Escape, SplitKey;
    var raw := CanonicalString(key);
    var line := raw + ":" + tail;
    QuoteAfterEscape(key, ":" + tail);
    assert line[1..] == Escape(key) + "\"" + (":" + tail);
    KeySplits(key, tail);
  }

  lemma KeySplits(key: string, tail: string)
    requires tail == "" || (|tail| >= 2 && tail[0] == ' ' && tail[1] != ' ')
    ensures var raw := CanonicalString(key);
            SplitKey(raw + ":" + tail, |raw| - 1) == Ok((key, if tail == "" then "" else tail[1..]))
  {
    hide ClosingQuote, Unescape, CanonicalString;
    var raw := CanonicalString(key);
    var line := raw + ":" + tail;
    var rest := ":" + tail;
    assert line[..|raw|] == raw && line[|raw|..] == rest;
    StringRoundTrip(key);
    if tail != "" {
      assert rest[2..] == tail[1..];
      assert !StartsWith(rest, ":  ") by { assert rest[2] == tail[1]; }
    }
  }

  /** An inline spelling reads back as its value. */
  lemma ScalarReads(value: Json)
    requires value.IsInline() && InlineText(value).Some?
    ensures ScalarAt(InlineText(value).value) == Ok(value)
  {
    hide Unescape, Escape, Decimal, ParseInteger;
    var raw := InlineText(value).value;
    match value
    case Str(s) =>
      StringRoundTrip(s);
      assert raw[0] == '"';
      assert ParseScalar(raw) == Some(value);
    case Number(n) =>
      NumberRoundTrip(n);
      DecimalDigits(if n < 0 then -n else n);
      assert raw[0] == '-' || IsDigit(raw[0]);
      assert ParseScalar(raw) == Some(value);
    case _ =>
  }

  lemma IndentReads(indent: nat, content: string)
    requires indent % 2 == 0 && content != "" && content[0] != ' ' && NoControls(content)
    ensures Indentation(Spaces(indent) + content) == Ok(indent)
    ensures (Spaces(indent) + content)[indent..] == content
  {
    var line := Spaces(indent) + content;
    assert line[indent] == content[0];
    assert LeadingSpaces(line) == indent;
    assert NoControls(line);
  }

  /* ---------- blocks ---------- */

  ghost predicate Block(lines: seq<string>, pos: nat, block: seq<string>) {
    pos + |block| <= |lines| && lines[pos..pos + |block|] == block
  }

  /** Reading a block at column `indent` stops at `pos`: at the end, or before a line further left. */
  ghost predicate Closed(lines: seq<string>, pos: nat, indent: nat) {
    pos <= |lines| && (pos < |lines| ==> Indentation(lines[pos]).Ok? && LeadingSpaces(lines[pos]) < indent)
  }

  lemma BlockHead(lines: seq<string>, pos: nat, block: seq<string>)
    requires Block(lines, pos, block) && block != []
    ensures pos < |lines| && lines[pos] == block[0]
  {
    assert lines[pos] == lines[pos..pos + |block|][0];
  }

  lemma BlockSplit(lines: seq<string>, pos: nat, first: seq<string>, second: seq<string>)
    requires Block(lines, pos, first + second)
    ensures Block(lines, pos, first) && Block(lines, pos + |first|, second)
  {
    var whole := lines[pos..pos + |first + second|];
    assert whole[..|first|] == first && whole[|first|..] == second;
  }

  lemma NodeIsMapping(lines: seq<string>, pos: nat, indent: nat)
    requires pos < |lines| && Indentation(lines[pos]) == Ok(indent) && IsMappingLine(lines[pos][indent..])
    ensures NodeAt(lines, pos, indent) == MappingAt(lines, pos, indent, map[])
  {
    hide MappingAt, SequenceAt, ScalarAt, ClosingQuote, Indentation;
    var content := lines[pos][indent..];
    assert content[0] == '"';
    assert !IsItemLine(content);
  }

  lemma NodeIsSequence(lines: seq<string>, pos: nat, indent: nat)
    requires pos < |lines| && Indentation(lines[pos]) == Ok(indent) && IsItemLine(lines[pos][indent..])
    ensures NodeAt(lines, pos, indent) == SequenceAt(lines, pos, indent, [])
  {
    hide MappingAt, SequenceAt, ScalarAt, ClosingQuote;
  }

  lemma SequenceStep(lines: seq<string>, pos: nat, indent: nat, acc: seq<Json>, rest: string, value: Json, end: nat)
    requires pos < |lines| && Indentation(lines[pos]) == Ok(indent) && IsItemLine(lines[pos][indent..])
    requires rest == if lines[pos][indent..] == "-" then "" else lines[pos][indent..][2..]
    requires ChildAt(lines, pos + 1, indent, rest) == Ok((value, end))
    ensures end <= |lines| && SequenceAt(lines, pos, indent, acc) == SequenceAt(lines, end, indent, acc + [value])
  {
    hide ChildAt, NodeAt, Indentation;
  }

  lemma MappingContinues(
      lines: seq<string>, pos: nat, indent: nat, acc: map<string, Json>, key: string, rest: string, value: Json, end: nat)
    requires pos < |lines| && Indentation(lines[pos]) == Ok(indent) && !StartsWith(lines[pos][indent..], "-")
    requires KeyAt(lines[pos][indent..]) == Ok((key, rest)) && key !in acc
    requires ChildAt(lines, pos + 1, indent, rest) == Ok((value, end))
    ensures end <= |lines| && MappingAt(lines, pos, indent, acc) == MappingAt(lines, end, indent, acc[key := value])
  {
    hide ChildAt, NodeAt, Indentation, KeyAt;
    MappingStep(lines, pos, indent, acc, (key, rest));
  }

  lemma StopsAt(lines: seq<string>, pos: nat, indent: nat, members: map<string, Json>, items: seq<Json>)
    requires Closed(lines, pos, indent)
    ensures MappingAt(lines, pos, indent, members) == FinishMapping(members, pos)
    ensures SequenceAt(lines, pos, indent, items) == FinishSequence(items, pos)
  {
    hide ChildAt, NodeAt;
  }

  lemma NodeIsScalar(lines: seq<string>, pos: nat, indent: nat, value: Json)
    requires pos < |lines| && Indentation(lines[pos]) == Ok(indent) && ScalarAt(lines[pos][indent..]) == Ok(value)
    requires var content := lines[pos][indent..];
             !IsItemLine(content) && !IsMappingLine(content) && LooksLikeScalar(content)
    ensures NodeAt(lines, pos, indent) == Ok((value, pos + 1))
  {
    hide MappingAt, SequenceAt, ScalarAt, IsMappingLine, LooksLikeScalar, IsItemLine, Indentation;
  }

  lemma LeafLine(t: Tree)
    requires Printable(t) && (t.Leaf? || t.OwnLine?)
    ensures !IsItemLine(LeafText(t)) && !IsMappingLine(LeafText(t)) && LooksLikeScalar(LeafText(t))
  {
    hide Escape, Decimal, ClosingQuote;
    var content := LeafText(t);
    InlineTextShape(t.value);
    match t.value
    case Str(s) =>
      QuoteAfterEscape(s, "");
      assert content[1..] == Escape(s) + "\"" + "";
    case Number(n) =>
      DecimalDigits(if n < 0 then -n else n);
      assert if n < 0 then content[0] == '-' && content[1] == Decimal(-n)[0] else IsDigit(content[0]);
    case _ =>
  }

  /** An inline value on a line of its own, at a position where a value is expected. */
  lemma InlineReads(t: Tree, lines: seq<string>, pos: nat, indent: nat)
    requires Printable(t) && (t.Leaf? || t.OwnLine?) && indent % 2 == 0
    requires pos < |lines| && lines[pos] == Spaces(indent) + LeafText(t)
    ensures NodeAt(lines, pos, indent) == Ok((Erase(t), pos + 1))
  {
    hide NodeAt, ScalarAt, IsItemLine, IsMappingLine, LooksLikeScalar, Indentation, InlineText;
    InlineTextShape(t.value);
    ScalarReads(t.value);
    LeafLine(t);
    IndentReads(indent, LeafText(t));
    NodeIsScalar(lines, pos, indent, t.value);
  }

  /** A block tree is read back as the value it stands for, and reading stops right behind it. */
  lemma {:induction false} NodeReads(t: Tree, lines: seq<string>, pos: nat, indent: nat)
    requires Printable(t) && !t.Leaf? && indent % 2 == 0
    requires Block(lines, pos, Lines(t, indent)) && Closed(lines, pos + |Lines(t, indent)|, indent)
    ensures NodeAt(lines, pos, indent) == Ok((Erase(t), pos + |Lines(t, indent)|))
    decreases t, 2
  {
    hide NodeAt, MappingAt, SequenceAt, KeyAt, ScalarAt, Indentation, Member, Item, IsMappingLine, IsItemLine;
    match t
    case OwnLine(_) =>
      BlockHead(lines, pos, Lines(t, indent));
      InlineReads(t, lines, pos, indent);
    case Mapping(entries) =>
      var first := Member(entries[0].key, entries[0].child, indent);
      BlockSplit(lines, pos, first, EntryLines(entries[1..], indent));
      MemberReads(entries[0].key, entries[0].child, indent);
      assert lines[pos] == first[0];
      NodeIsMapping(lines, pos, indent);
      MappingReads(entries, lines, pos, indent, map[]);
    case Sequence(items) =>
      var first := Item(items[0], indent);
      BlockSplit(lines, pos, first, ItemLines(items[1..], indent));
      ItemReads(items[0], indent);
      assert lines[pos] == first[0];
      NodeIsSequence(lines, pos, indent);
      SequenceReads(items, lines, pos, indent, []);
      assert [] + EraseItems(items) == EraseItems(items);
  }

  /** What the head line of a member or an item holds behind its separator. */
  ghost function Rest(child: Tree): string
    requires Printable(child)
  {
    if child.Leaf? then LeafText(child) else ""
  }

  /** The head line of a member. */
  lemma MemberReads(key: string, child: Tree, indent: nat)
    requires Printable(child) && indent % 2 == 0
    ensures Member(key, child, indent) != []
    ensures var head := Member(key, child, indent)[0];
            && Indentation(head) == Ok(indent)
            && KeyAt(head[indent..]) == Ok((key, Rest(child)))
            && IsMappingLine(head[indent..]) && head[indent] == '"'
  {
    hide KeyAt, ClosingQuote, Escape, Indentation, IsMappingLine, InlineText;
    var tail := if child.Leaf? then " " + LeafText(child) else "";
    if child.Leaf? {
      InlineTextShape(child.value);
      assert tail[1..] == LeafText(child);
    }
    var content := CanonicalString(key) + ":" + tail;
    CanonicalStringHasNoControls(key);
    assert Member(key, child, indent)[0] == Spaces(indent) + content;
    KeyReads(key, tail);
    IndentReads(indent, content);
  }

  /** The head line of an item. */
  lemma ItemReads(child: Tree, indent: nat)
    requires Printable(child) && indent % 2 == 0
    ensures Item(child, indent) != []
    ensures var head := Item(child, indent)[0];
            && Indentation(head) == Ok(indent) && IsItemLine(head[indent..]) && head[indent] == '-'
            && (if head[indent..] == "-" then "" else head[indent..][2..]) == Rest(child)
  {
    var content := if child.Leaf? then "- " + LeafText(child) else "-";
    if child.Leaf? {
      InlineTextShape(child.value);
      assert content[2..] == LeafText(child);
    }
    assert Item(child, indent)[0] == Spaces(indent) + content;
    IndentReads(indent, content);
  }

  /** A member value or item, given the rest of its head line and the lines below. */
  lemma {:induction false} ChildReads(child: Tree, lines: seq<string>, pos: nat, indent: nat)
    requires Printable(child) && indent % 2 == 0
    requires !child.Leaf? ==> Block(lines, pos, Lines(child, indent + 2))
    requires pos <= |lines|
    requires !child.Leaf? ==> Closed(lines, pos + |Lines(child, indent + 2)|, indent + 2)
    ensures ChildAt(lines, pos, indent, Rest(child))
         == Ok((Erase(child), if child.Leaf? then pos else pos + |Lines(child, indent + 2)|))
    decreases child, 3
  {
    if child.Leaf? {
      InlineTextShape(child.value);
      ScalarReads(child.value);
    } else {
      LinesAreClean(child, indent + 2);
      NodeReads(child, lines, pos, indent + 2);
    }
  }

  ghost predicate FreshKeys(entries: seq<Entry>, acc: map<string, Json>) {
    DistinctKeys(entries) && forall i :: 0 <= i < |entries| ==> entries[i].key !in acc
  }

  lemma {:induction false} MappingReads(
      entries: seq<Entry>, lines: seq<string>, pos: nat, indent: nat, acc: map<string, Json>)
    requires PrintableEntries(entries) && FreshKeys(entries, acc) && indent % 2 == 0
    requires entries != [] || |acc| != 0
    requires Block(lines, pos, EntryLines(entries, indent)) && Closed(lines, pos + |EntryLines(entries, indent)|, indent)
    ensures MappingAt(lines, pos, indent, acc)
         == Ok((Obj(EraseEntries(acc, entries)), pos + |EntryLines(entries, indent)|))
    decreases entries, 0
  {
    hide MappingAt, Member, Closed, Block, Erase, EntryLines, EraseEntries;
    if entries == [] {
      NoMembersLeft(lines, pos, indent, acc);
    } else {
      var key, child := entries[0].key, entries[0].child;
      var first := Member(key, child, indent);
      MemberStep(entries, lines, pos, indent, acc);
      MappingReads(entries[1..], lines, pos + |first|, indent, acc[key := Erase(child)]);
    }
  }

  lemma NoMembersLeft(lines: seq<string>, pos: nat, indent: nat, acc: map<string, Json>)
    requires Closed(lines, pos + |EntryLines([], indent)|, indent) && |acc| != 0
    ensures MappingAt(lines, pos, indent, acc) == Ok((Obj(EraseEntries(acc, [])), pos + |EntryLines([], indent)|))
  {
    StopsAt(lines, pos, indent, acc, []);
  }

  /** Reading the first of several members. */
  lemma {:induction false} MemberStep(
      entries: seq<Entry>, lines: seq<string>, pos: nat, indent: nat, acc: map<string, Json>)
    requires PrintableEntries(entries) && FreshKeys(entries, acc) && indent % 2 == 0 && entries != []
    requires Block(lines, pos, EntryLines(entries, indent)) && Closed(lines, pos + |EntryLines(entries, indent)|, indent)
    ensures var first := Member(entries[0].key, entries[0].child, indent);
            var next := acc[entries[0].key := Erase(entries[0].child)];
            && EntryLines(entries, indent) == first + EntryLines(entries[1..], indent)
            && EraseEntries(acc, entries) == EraseEntries(next, entries[1..])
            && Block(lines, pos + |first|, EntryLines(entries[1..], indent))
            && Closed(lines, pos + |first| + |EntryLines(entries[1..], indent)|, indent)
            && FreshKeys(entries[1..], next) && |next| != 0
            && MappingAt(lines, pos, indent, acc) == MappingAt(lines, pos + |first|, indent, next)
    decreases entries, -1
  {
    hide NodeAt, MappingAt, KeyAt, Indentation, IsMappingLine, Member, Lines, Closed, Erase, ChildAt, Block, Rest;
    var key, child := entries[0].key, entries[0].child;
    var first := Member(key, child, indent);
    BlockSplit(lines, pos, first, EntryLines(entries[1..], indent));
    MemberReads(key, child, indent);
    BlockHead(lines, pos, first);
    ClosedBeforeEntries(entries[1..], lines, pos + |first|, indent);
    MemberBlock(key, child, lines, pos, indent);
    ChildReads(child, lines, pos + 1, indent);
    var next := acc[key := Erase(child)];
    assert key in next;
    MappingContinues(lines, pos, indent, acc, key, Rest(child), Erase(child), pos + |first|);
  }

  lemma MemberBlock(key: string, child: Tree, lines: seq<string>, pos: nat, indent: nat)
    requires Printable(child) && Block(lines, pos, Member(key, child, indent))
    ensures child.Leaf? ==> |Member(key, child, indent)| == 1
    ensures !child.Leaf? ==> |Member(key, child, indent)| == 1 + |Lines(child, indent + 2)|
    ensures !child.Leaf? ==> Block(lines, pos + 1, Lines(child, indent + 2))
  {
    if !child.Leaf? {
      var first := Member(key, child, indent);
      BlockSplit(lines, pos, first[..1], Lines(child, indent + 2));
    }
  }

  /** What follows a member's value closes every deeper block. */
  lemma ClosedBeforeEntries(entries: seq<Entry>, lines: seq<string>, pos: nat, indent: nat)
    requires PrintableEntries(entries) && indent % 2 == 0
    requires Block(lines, pos, EntryLines(entries, indent)) && Closed(lines, pos + |EntryLines(entries, indent)|, indent)
    ensures Closed(lines, pos, indent + 2)
  {
    if entries != [] {
      var first := Member(entries[0].key, entries[0].child, indent);
      BlockSplit(lines, pos, first, EntryLines(entries[1..], indent));
      assert lines[pos] == first[0];
      MemberReads(entries[0].key, entries[0].child, indent);
    }
  }

  lemma {:induction false} SequenceReads(items: seq<Tree>, lines: seq<string>, pos: nat, indent: nat, acc: seq<Json>)
    requires PrintableItems(items) && indent % 2 == 0
    requires items != [] || acc != []
    requires Block(lines, pos, ItemLines(items, indent)) && Closed(lines, pos + |ItemLines(items, indent)|, indent)
    ensures SequenceAt(lines, pos, indent, acc) == Ok((Arr(acc + EraseItems(items)), pos + |ItemLines(items, indent)|))
    decreases items, 0
  {
    hide SequenceAt, Item, Closed, Block, Erase, ItemLines, EraseItems;
    if items == [] {
      NoItemsLeft(lines, pos, indent, acc);
    } else {
      var first := Item(items[0], indent);
      ItemStep(items, lines, pos, indent, acc);
      SequenceReads(items[1..], lines, pos + |first|, indent, acc + [Erase(items[0])]);
      assert acc + [Erase(items[0])] + EraseItems(items[1..]) == acc + EraseItems(items);
    }
  }

  lemma NoItemsLeft(lines: seq<string>, pos: nat, indent: nat, acc: seq<Json>)
    requires Closed(lines, pos + |ItemLines([], indent)|, indent) && acc != []
    ensures SequenceAt(lines, pos, indent, acc) == Ok((Arr(acc + EraseItems([])), pos + |ItemLines([], indent)|))
  {
    assert acc + EraseItems([]) == acc;
    StopsAt(lines, pos, indent, map[], acc);
  }

  /** Reading the first of several items. */
  lemma {:induction false} ItemStep(items: seq<Tree>, lines: seq<string>, pos: nat, indent: nat, acc: seq<Json>)
    requires PrintableItems(items) && indent % 2 == 0 && items != []
    requires Block(lines, pos, ItemLines(items, indent)) && Closed(lines, pos + |ItemLines(items, indent)|, indent)
    ensures var first := Item(items[0], indent);
            && ItemLines(items, indent) == first + ItemLines(items[1..], indent)
            && EraseItems(items) == [Erase(items[0])] + EraseItems(items[1..])
            && Block(lines, pos + |first|, ItemLines(items[1..], indent))
            && Closed(lines, pos + |first| + |ItemLines(items[1..], indent)|, indent)
            && SequenceAt(lines, pos, indent, acc) == SequenceAt(lines, pos + |first|, indent, acc + [Erase(items[0])])
    decreases items, -1
  {
    hide NodeAt, SequenceAt, Indentation, IsItemLine, Item, Lines, Closed, Erase, ChildAt, Block, Rest;
    var child := items[0];
    var first := Item(child, indent);
    BlockSplit(lines, pos, first, ItemLines(items[1..], indent));
    ItemReads(child, indent);
    BlockHead(lines, pos, first);
    ClosedBeforeItems(items[1..], lines, pos + |first|, indent);
    ItemBlock(child, lines, pos, indent);
    ChildReads(child, lines, pos + 1, indent);
    SequenceStep(lines, pos, indent, acc, Rest(child), Erase(child), pos + |first|);
  }

  lemma ItemBlock(child: Tree, lines: seq<string>, pos: nat, indent: nat)
    requires Printable(child) && Block(lines, pos, Item(child, indent))
    ensures child.Leaf? ==> |Item(child, indent)| == 1
    ensures !child.Leaf? ==> |Item(child, indent)| == 1 + |Lines(child, indent + 2)|
    ensures !child.Leaf? ==> Block(lines, pos + 1, Lines(child, indent + 2))
  {
    if !child.Leaf? {
      var first := Item(child, indent);
      BlockSplit(lines, pos, first[..1], Lines(child, indent + 2));
    }
  }

  lemma ClosedBeforeItems(items: seq<Tree>, lines: seq<string>, pos: nat, indent: nat)
    requires PrintableItems(items) && indent % 2 == 0
    requires Block(lines, pos, ItemLines(items, indent)) && Closed(lines, pos + |ItemLines(items, indent)|, indent)
    ensures Closed(lines, pos, indent + 2)
  {
    if items != [] {
      var first := Item(items[0], indent);
      BlockSplit(lines, pos, first, ItemLines(items[1..], indent));
      assert lines[pos] == first[0];
      ItemReads(items[0], indent);
    }
  }

  /* ---------- the whole text ---------- */

  ghost function Join(lines: seq<string>): string {
    if lines == [] then "" else if |lines| == 1 then lines[0] else lines[0] + "\n" + Join(lines[1..])
  }

  /** The exact text of a canonical source. */
  ghost function SourceText(t: Tree): string
    requires Printable(t)
  {
    Join(Lines(t, 0)) + "\n"
  }

  lemma {:induction false} SplitFirst(line: string, rest: string)
    requires '\n' !in line
    ensures Split(line + "\n" + rest, '\n') == [line] + Split(rest, '\n')
    ensures Split(line, '\n') == [line]
  {
    var s := line + "\n" + rest;
    if line == "" {
      assert s[1..] == rest;
    } else {
      assert s[1..] == line[1..] + "\n" + rest;
      SplitFirst(line[1..], rest);
      assert [line[0]] + line[1..] == line;
      assert Split(s[1..], '\n')[1..] == Split(rest, '\n');
    }
  }

  lemma {:induction false} SplitJoin(lines: seq<string>)
    requires lines != [] && AllClean(lines)
    ensures Split(Join(lines), '\n') == lines
    ensures Join(lines) != "" && Join(lines)[|Join(lines)| - 1] != '\n' && Join(lines)[0] == lines[0][0]
    ensures '\r' !in Join(lines)
  {
    assert Clean(lines[0]);
    assert '\n' !in lines[0];
    if |lines| == 1 {
      SplitFirst(lines[0], "");
    } else {
      hide Split;
      var rest := Join(lines[1..]);
      SplitFirst(lines[0], rest);
      SplitJoin(lines[1..]);
      assert Join(lines)[|Join(lines)| - 1] == rest[|rest| - 1];
    }
  }

  lemma FirstCharacter(t: Tree)
    requires Printable(t)
    ensures Lines(t, 0) != [] && Lines(t, 0)[0] != "" && Lines(t, 0)[0][0] < '\U{7F}'
    decreases t.OwnLine?
  {
    LinesAreClean(t, 0);
    match t
    case Leaf(value) =>
      InlineTextShape(value);
      if value.Number? {
        var n := value.number;
        DecimalDigits(if n < 0 then -n else n);
      }
    case OwnLine(value) =>
      assert Spaces(0) + LeafText(t) == LeafText(t);
      FirstCharacter(Leaf(value));
    case Mapping(entries) =>
      MemberReads(entries[0].key, entries[0].child, 0);
      assert Lines(t, 0)[0] == Member(entries[0].key, entries[0].child, 0)[0];
    case Sequence(items) =>
      ItemReads(items[0], 0);
      assert Lines(t, 0)[0] == Item(items[0], 0)[0];
  }

  lemma SourceReadsAsLines(t: Tree)
    requires Printable(t)
    ensures SourceLines(SourceText(t)) == Ok(Lines(t, 0))
  {
    hide Split, Printable, Lines, Join;
    var lines := Lines(t, 0);
    var text := SourceText(t);
    LinesAreClean(t, 0);
    FirstCharacter(t);
    SplitJoin(lines);
    assert text[..|text| - 1] == Join(lines);
    assert text[0] == lines[0][0];
    assert text[|text| - 2..][0] == text[|text| - 2] != '\n';
    assert forall i :: 0 <= i < |lines| ==> Clean(lines[i]);
  }

  /** Decoding the canonical text of any arranged value gives the value: nothing but member order is lost. */
  lemma DecodeUndoesLayout(t: Tree)
    requires Printable(t)
    ensures Decode(SourceText(t)) == Ok(Erase(t))
  {
    hide NodeAt, SourceLines, SourceText;
    var lines := Lines(t, 0);
    SourceReadsAsLines(t);
    if t.Leaf? {
      assert Spaces(0) + LeafText(t) == LeafText(t);
      InlineReads(t, lines, 0, 0);
    } else {
      assert lines[0..0 + |lines|] == lines;
      NodeReads(t, lines, 0, 0);
    }
  }
}
