/**
 * Everything the decoder accepts is a printed tree: together with `CodecRoundTrip` this describes
 * its language exactly.
 */
module DecoderSoundness {
  import opened Prelude
  import opened Strings
  import opened CanonicalText
  import opened Layout
  import opened CanonicalYaml
  import opened CodecRoundTrip

  ghost predicate Unpadded(lines: seq<string>) {
    forall i :: 0 <= i < |lines| ==> !IsPadded(lines[i])
  }

  /* ---------- one line ---------- */

  lemma LineContent(line: string, indent: nat)
    requires Indentation(line) == Ok(indent) && !IsPadded(line)
    ensures indent < |line| && line == Spaces(indent) + line[indent..] && !IsPadded(line[indent..])
  {
    assert line[|line| - 1] != ' ';
    assert line[..indent] == Spaces(indent);
    assert line == line[..indent] + line[indent..];
  }

  lemma ScalarText(raw: string, value: Json)
    requires ScalarAt(raw) == Ok(value)
    ensures value.IsInline() && InlineText(value) == Some(raw)
  {
    hide ParseScalar;
    assert Obj(map[]).IsInline() && Arr([]).IsInline();
  }

  /** What follows the separator of a head line. */
  ghost function Tail(separator: string, rest: string): string {
    if rest == "" then separator else separator + " " + rest
  }

  lemma KeyText(content: string, key: string, rest: string)
    requires KeyAt(content) == Ok((key, rest)) && !IsPadded(content)
    ensures content == CanonicalString(key) + Tail(":", rest)
  {
    hide ClosingQuote, Unescape, CanonicalString;
    var quote := ClosingQuote(content[1..]).value + 1;
    var raw, after := content[..quote + 1], content[quote + 1..];
    assert after != "" ==> after[|after| - 1] == content[|content| - 1] != ' ';
    assert SplitKey(content, quote) == Ok((key, rest));
    assert content == raw + after && raw == CanonicalString(key);
    if after != ":" {
      assert after == ": " + rest;
    }
  }

  lemma ItemContent(content: string, rest: string)
    requires IsItemLine(content) && !IsPadded(content)
    requires rest == if content == "-" then "" else content[2..]
    ensures content == Tail("-", rest)
  {
    if content != "-" {
      assert content == "- " + rest;
      assert content[|content| - 1] != ' ';
    }
  }

  lemma Consecutive(lines: seq<string>, pos: nat, first: seq<string>, second: seq<string>)
    requires Block(lines, pos, first) && Block(lines, pos + |first|, second)
    ensures Block(lines, pos, first + second)
  {
    assert lines[pos..pos + |first + second|] == lines[pos..pos + |first|] + lines[pos + |first|..pos + |first| + |second|];
  }

  lemma OneLine(lines: seq<string>, pos: nat)
    requires pos < |lines|
    ensures Block(lines, pos, [lines[pos]])
  {
  }

  /* ---------- blocks ---------- */

  lemma NodeCases(lines: seq<string>, pos: nat, indent: nat)
    requires pos <= |lines| && NodeAt(lines, pos, indent).Ok?
    ensures pos < |lines| && Indentation(lines[pos]) == Ok(indent)
    ensures var content := lines[pos][indent..];
            && (IsItemLine(content) ==> NodeAt(lines, pos, indent) == SequenceAt(lines, pos, indent, []))
            && (!IsItemLine(content) && (IsMappingLine(content) || !LooksLikeScalar(content)) ==>
                NodeAt(lines, pos, indent) == MappingAt(lines, pos, indent, map[]))
            && (!IsItemLine(content) && !IsMappingLine(content) && LooksLikeScalar(content) ==>
                ScalarAt(content).Ok? && NodeAt(lines, pos, indent) == Ok((ScalarAt(content).value, pos + 1)))
  {
    hide MappingAt, SequenceAt, ScalarAt, IsMappingLine, LooksLikeScalar, IsItemLine;
  }

  /** The tree that was read at a position. */
  lemma {:induction false} NodeTree(lines: seq<string>, pos: nat, indent: nat) returns (t: Tree)
    requires Unpadded(lines) && pos <= |lines| && NodeAt(lines, pos, indent).Ok?
    ensures Printable(t) && !t.Leaf? && Block(lines, pos, Lines(t, indent))
    ensures NodeAt(lines, pos, indent) == Ok((Erase(t), pos + |Lines(t, indent)|))
    decreases |lines| - pos, 2
  {
    hide NodeAt, MappingAt, SequenceAt, Indentation, IsItemLine, IsMappingLine, LooksLikeScalar, ScalarAt, Block,
      Unpadded, IsPadded, InlineText;
    NodeCases(lines, pos, indent);
    var content := lines[pos][indent..];
    if IsItemLine(content) {
      var items := SequenceTree(lines, pos, indent, []);
      t := Sequence(items);
      assert [] + EraseItems(items) == EraseItems(items);
    } else if !IsMappingLine(content) && LooksLikeScalar(content) {
      var value := ScalarAt(content).value;
      ScalarText(content, value);
      UnpaddedAt(lines, pos);
      LineContent(lines[pos], indent);
      t := OwnLine(value);
      OneLine(lines, pos);
    } else {
      var entries := MappingTree(lines, pos, indent, map[]);
      assert FreshKeys(entries, map[]);
      t := Mapping(entries);
    }
  }

  lemma UnpaddedAt(lines: seq<string>, pos: nat)
    requires Unpadded(lines) && pos < |lines|
    ensures !IsPadded(lines[pos])
  {
  }

  lemma {:induction false} ChildTree(lines: seq<string>, pos: nat, indent: nat, rest: string) returns (t: Tree)
    requires Unpadded(lines) && pos <= |lines| && ChildAt(lines, pos, indent, rest).Ok?
    ensures Printable(t) && (t.Leaf? <==> rest != "")
    ensures t.Leaf? ==> LeafText(t) == rest && ChildAt(lines, pos, indent, rest) == Ok((Erase(t), pos))
    ensures !t.Leaf? ==> Block(lines, pos, Lines(t, indent + 2))
    ensures !t.Leaf? ==> ChildAt(lines, pos, indent, rest) == Ok((Erase(t), pos + |Lines(t, indent + 2)|))
    decreases |lines| - pos, 3
  {
    hide Indentation, ScalarAt, NodeAt, Unpadded;
    if rest != "" {
      var value := ScalarAt(rest).value;
      ScalarText(rest, value);
      t := Leaf(value);
    } else {
      t := NodeTree(lines, pos, indent + 2);
    }
  }

  lemma MemberLines(key: string, t: Tree, lines: seq<string>, pos: nat, indent: nat, rest: string)
    requires Printable(t) && pos < |lines| && (t.Leaf? <==> rest != "") && (t.Leaf? ==> LeafText(t) == rest)
    requires lines[pos] == Spaces(indent) + (CanonicalString(key) + Tail(":", rest))
    requires !t.Leaf? ==> Block(lines, pos + 1, Lines(t, indent + 2))
    ensures Block(lines, pos, Member(key, t, indent))
    ensures |Member(key, t, indent)| == if t.Leaf? then 1 else 1 + |Lines(t, indent + 2)|
  {
    hide CanonicalString, Spaces, Lines, Printable, LeafText;
    OneLine(lines, pos);
    if t.Leaf? {
      assert lines[pos] == Spaces(indent) + CanonicalString(key) + ": " + rest;
    } else {
      assert lines[pos] == Spaces(indent) + CanonicalString(key) + ":";
      Consecutive(lines, pos, [lines[pos]], Lines(t, indent + 2));
    }
  }

  lemma ItemBlockLines(t: Tree, lines: seq<string>, pos: nat, indent: nat, rest: string)
    requires Printable(t) && pos < |lines| && (t.Leaf? <==> rest != "") && (t.Leaf? ==> LeafText(t) == rest)
    requires lines[pos] == Spaces(indent) + Tail("-", rest)
    requires !t.Leaf? ==> Block(lines, pos + 1, Lines(t, indent + 2))
    ensures Block(lines, pos, Item(t, indent))
    ensures |Item(t, indent)| == if t.Leaf? then 1 else 1 + |Lines(t, indent + 2)|
  {
    hide Spaces, Lines, Printable, LeafText;
    OneLine(lines, pos);
    if t.Leaf? {
      assert lines[pos] == Spaces(indent) + "- " + rest;
    } else {
      Consecutive(lines, pos, [lines[pos]], Lines(t, indent + 2));
    }
  }

  ghost predicate StopsHere(lines: seq<string>, pos: nat, indent: nat)
    requires pos <= |lines|
  {
    pos == |lines| || Indentation(lines[pos]) != Ok(indent) || StartsWith(lines[pos][indent..], "-")
  }

  lemma MappingCases(lines: seq<string>, pos: nat, indent: nat, acc: map<string, Json>)
    requires pos <= |lines| && MappingAt(lines, pos, indent, acc).Ok?
    ensures StopsHere(lines, pos, indent) ==> MappingAt(lines, pos, indent, acc) == FinishMapping(acc, pos)
    ensures !StopsHere(lines, pos, indent) ==>
              && KeyAt(lines[pos][indent..]).Ok?
              && var member := KeyAt(lines[pos][indent..]).value;
              && ChildAt(lines, pos + 1, indent, member.1).Ok? && member.0 !in acc
  {
    hide KeyAt, ChildAt;
  }

  lemma {:induction false} MappingTree(lines: seq<string>, pos: nat, indent: nat, acc: map<string, Json>)
    returns (entries: seq<Entry>)
    requires Unpadded(lines) && pos <= |lines| && MappingAt(lines, pos, indent, acc).Ok?
    ensures PrintableEntries(entries) && FreshKeys(entries, acc) && (|acc| == 0 ==> entries != [])
    ensures Block(lines, pos, EntryLines(entries, indent))
    ensures MappingAt(lines, pos, indent, acc)
         == Ok((Obj(EraseEntries(acc, entries)), pos + |EntryLines(entries, indent)|))
    decreases |lines| - pos, 1
  {
    hide MappingAt, KeyAt, ChildAt, Indentation, IsPadded, Unpadded, Member, Printable, CanonicalString, FreshKeys,
      Block, Lines;
    MappingCases(lines, pos, indent, acc);
    if StopsHere(lines, pos, indent) {
      entries := [];
      NothingFresh(acc);
      NothingRead(lines, pos);
    } else {
      UnpaddedAt(lines, pos);
      var content := lines[pos][indent..];
      var (key, rest) := KeyAt(content).value;
      var child := ChildTree(lines, pos + 1, indent, rest);
      LineContent(lines[pos], indent);
      KeyText(content, key, rest);
      MemberLines(key, child, lines, pos, indent, rest);
      var first := Member(key, child, indent);
      var next := acc[key := Erase(child)];
      MappingContinues(lines, pos, indent, acc, key, rest, Erase(child), pos + |first|);
      var others := MappingTree(lines, pos + |first|, indent, next);
      entries := [Entry(key, child)] + others;
      assert entries[1..] == others;
      StillFresh(Entry(key, child), others, acc);
      Consecutive(lines, pos, first, EntryLines(others, indent));
    }
  }

  lemma NothingRead(lines: seq<string>, pos: nat)
    requires pos <= |lines|
    ensures Block(lines, pos, [])
  {
  }

  lemma NothingFresh(acc: map<string, Json>)
    ensures FreshKeys([], acc)
  {
  }

  lemma StillFresh(first: Entry, others: seq<Entry>, acc: map<string, Json>)
    requires first.key !in acc && FreshKeys(others, acc[first.key := Erase(first.child)])
    ensures FreshKeys([first] + others, acc)
  {
    var all := [first] + others;
    var next := acc[first.key := Erase(first.child)];
    forall i | 0 <= i < |all| ensures all[i].key !in acc && (i > 0 ==> all[i].key != first.key) {
      if i > 0 {
        assert all[i] == others[i - 1] && others[i - 1].key !in next;
      }
    }
  }

  lemma {:induction false} SequenceTree(lines: seq<string>, pos: nat, indent: nat, acc: seq<Json>)
    returns (items: seq<Tree>)
    requires Unpadded(lines) && pos <= |lines| && SequenceAt(lines, pos, indent, acc).Ok?
    ensures PrintableItems(items) && (acc == [] ==> items != [])
    ensures Block(lines, pos, ItemLines(items, indent))
    ensures SequenceAt(lines, pos, indent, acc) == Ok((Arr(acc + EraseItems(items)), pos + |ItemLines(items, indent)|))
    decreases |lines| - pos, 1
  {
    hide ChildAt, Indentation, IsPadded, Unpadded, Item, Printable, IsItemLine;
    if pos == |lines| || Indentation(lines[pos]) != Ok(indent) || !StartsWith(lines[pos][indent..], "-") {
      items := [];
      assert acc + EraseItems(items) == acc;
    } else {
      UnpaddedAt(lines, pos);
      LineContent(lines[pos], indent);
      var content := lines[pos][indent..];
      var rest := if content == "-" then "" else content[2..];
      ItemContent(content, rest);
      var child := ChildTree(lines, pos + 1, indent, rest);
      ItemBlockLines(child, lines, pos, indent, rest);
      var first := Item(child, indent);
      SequenceStep(lines, pos, indent, acc, rest, Erase(child), pos + |first|);
      var others := SequenceTree(lines, pos + |first|, indent, acc + [Erase(child)]);
      items := [child] + others;
      OneMoreItem(child, others, indent, acc);
      hide ItemLines, EraseItems, PrintableItems, SequenceAt, Erase, Block;
      Consecutive(lines, pos, first, ItemLines(others, indent));
    }
  }

  lemma OneMoreItem(child: Tree, others: seq<Tree>, indent: nat, acc: seq<Json>)
    requires Printable(child) && PrintableItems(others)
    ensures PrintableItems([child] + others)
    ensures ItemLines([child] + others, indent) == Item(child, indent) + ItemLines(others, indent)
    ensures acc + [Erase(child)] + EraseItems(others) == acc + EraseItems([child] + others)
  {
    hide Printable, Item, Erase;
    assert ([child] + others)[1..] == others;
  }

  /* ---------- whole sources ---------- */

  lemma {:induction false} JoinSplit(s: string)
    ensures Join(Split(s, '\n')) == s
  {
    if s == "" {
    } else {
      JoinSplit(s[1..]);
      var rest := Split(s[1..], '\n');
      assert s == [s[0]] + s[1..];
      if s[0] == '\n' {
        assert ([""] + rest)[1..] == rest;
      } else {
        var parts := [[s[0]] + rest[0]] + rest[1..];
        assert parts[1..] == rest[1..];
        if |rest| > 1 {
          assert Join(parts) == [s[0]] + rest[0] + "\n" + Join(rest[1..]);
        }
      }
    }
  }

  lemma AcceptedTree(text: string) returns (t: Tree)
    requires Decode(text).Ok?
    ensures Printable(t) && Erase(t) == Decode(text).value && SourceText(t) == text
  {
    hide NodeAt, Split, Printable, Lines, Erase;
    var lines := SourceLines(text).value;
    assert Unpadded(lines);
    var body := text[..|text| - 1];
    JoinSplit(body);
    assert text == body + "\n";
    t := NodeTree(lines, 0, 0);
    assert lines[0..0 + |lines|] == lines;
  }

  /**
   * The language of the decoder: it accepts exactly the printed trees, and returns what they stand
   * for.  `OwnLine` leaves are the only freedom it leaves beyond member order.
   */
  lemma DecodeExact(text: string, value: Json)
    ensures Decode(text) == Ok(value) <==> exists t :: Printable(t) && SourceText(t) == text && Erase(t) == value
  {
    hide Decode, SourceText;
    if Decode(text) == Ok(value) {
      var t := AcceptedTree(text);
    }
    forall t | Printable(t) && SourceText(t) == text ensures Decode(text) == Ok(Erase(t)) {
      DecodeUndoesLayout(t);
    }
  }
}
