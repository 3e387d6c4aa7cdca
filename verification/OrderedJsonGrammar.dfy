/** The grammar of schema documents, and that the ordered parser accepts nothing else. */
module OrderedJsonGrammar {
  import opened Prelude
  import opened CanonicalText
  import opened StringGrammar
  import opened SchemaCatalog
  import opened OrderedJson
  import opened OrderedJsonRoundTrip

  ghost predicate Blank(text: string, i: nat, j: nat) {
    forall k :: i <= k < j <= |text| ==> text[k] in {' ', '\t', '\n', '\r'}
  }

  /** A numeral: number characters, the first of them a digit or a minus sign, that pass the test. */
  ghost predicate NumeralText(n: string, isNumber: string -> bool) {
    n != "" && ('0' <= n[0] <= '9' || n[0] == '-') && isNumber(n)
    && forall k :: 0 <= k < |n| ==> '0' <= n[k] <= '9' || n[k] in {'-', '+', '.', 'e', 'E'}
  }

  /** The characters from `i` to `j` are a text of the value. */
  ghost predicate ValueAt(text: string, i: nat, j: nat, v: OrderedValue, isNumber: string -> bool)
    requires i <= j <= |text|
    decreases j - i, 0
  {
    match v
    case ONull => text[i..j] == "null"
    case OBool(flag) => text[i..j] == if flag then "true" else "false"
    case ONumber => NumeralText(text[i..j], isNumber)
    case OString(s) => Literal(text[i..j], s)
    case OArray(items) =>
      i + 2 <= j && text[i] == '[' && text[j - 1] == ']'
      && if items == [] then Blank(text, i + 1, j - 1) else ItemsAt(text, i + 1, j - 1, items, isNumber)
    case OObject(entries) =>
      i + 2 <= j && text[i] == '{' && text[j - 1] == '}'
      && if entries == [] then Blank(text, i + 1, j - 1) else MembersAt(text, i + 1, j - 1, entries, isNumber)
  }

  /** The same with white space before and behind. */
  ghost predicate PaddedAt(text: string, i: nat, j: nat, v: OrderedValue, isNumber: string -> bool)
    requires i <= j <= |text|
    decreases j - i, 1
  {
    exists a, b :: i <= a <= b <= j && Blank(text, i, a) && ValueAt(text, a, b, v, isNumber) && Blank(text, b, j)
  }

  /** Items with a comma between any two. */
  ghost predicate ItemsAt(text: string, i: nat, j: nat, items: seq<OrderedValue>, isNumber: string -> bool)
    requires i <= j <= |text| && items != []
    decreases j - i, 2
  {
    if |items| == 1 then PaddedAt(text, i, j, items[0], isNumber)
    else exists n :: i <= n < j && text[n] == ',' && PaddedAt(text, i, n, items[0], isNumber)
                     && ItemsAt(text, n + 1, j, items[1..], isNumber)
  }

  /** A key, a colon and a value. */
  ghost predicate MemberAt(text: string, i: nat, j: nat, entry: (string, OrderedValue), isNumber: string -> bool)
    requires i <= j <= |text|
    decreases j - i, 2
  {
    exists a, b, c :: i <= a <= b <= c < j && Blank(text, i, a) && Literal(text[a..b], entry.0) && Blank(text, b, c)
                      && text[c] == ':' && PaddedAt(text, c + 1, j, entry.1, isNumber)
  }

  ghost predicate MembersAt(text: string, i: nat, j: nat, entries: seq<(string, OrderedValue)>, isNumber: string -> bool)
    requires i <= j <= |text| && entries != []
    decreases j - i, 3
  {
    if |entries| == 1 then MemberAt(text, i, j, entries[0], isNumber)
    else exists n :: i <= n < j && text[n] == ',' && MemberAt(text, i, n, entries[0], isNumber)
                     && MembersAt(text, n + 1, j, entries[1..], isNumber)
  }

  /* ---------- what is read ---------- */

  lemma {:induction false} SkippedIsBlank(text: string, i: nat)
    requires i <= |text|
    ensures Blank(text, i, SkipSpace(text, i))
    decreases |text| - i
  {
    if i < |text| && IsSpace(text[i]) {
      SkippedIsBlank(text, i + 1);
    }
  }

  lemma {:induction false} SkippedAreNumeric(text: string, i: nat)
    requires i <= |text|
    ensures forall k :: i <= k < SkipNumber(text, i) ==> IsNumberChar(text[k])
    decreases |text| - i
  {
    if i < |text| && IsNumberChar(text[i]) {
      SkippedAreNumeric(text, i + 1);
    }
  }

  lemma StringIsLiteral(text: string, i: nat)
    requires i < |text| && ReadString(text, i).Ok?
    ensures var (s, end) := ReadString(text, i).value; Literal(text[i..end], s)
  {
    hide StringEnd, ParseString;
    var (s, end) := ReadString(text, i).value;
    StringsExactly(text[i..end], s);
  }

  lemma NumberIsNumeral(text: string, i: nat, isNumber: string -> bool)
    requires i < |text| && StartsNumber(text[i]) && ReadNumber(text, i, isNumber).Ok?
    ensures NumeralText(text[i..ReadNumber(text, i, isNumber).value.1], isNumber)
  {
    SkippedAreNumeric(text, i + 1);
    var end := SkipNumber(text, i + 1);
    assert forall k :: 0 <= k < end - i ==> text[i..end][k] == text[i + k];
  }

  /** Whatever value is read, its characters are a text of it. */
  lemma {:induction false} ValueRead(text: string, i: nat, isNumber: string -> bool)
    requires i <= |text| && ReadValue(text, i, isNumber).Ok?
    ensures var (v, end) := ReadValue(text, i, isNumber).value; SkipSpace(text, i) <= end <= |text| && ValueAt(text, SkipSpace(text, i), end, v, isNumber)
    decreases |text| - i, 1
  {
    var j := SkipSpace(text, i);
    hide ReadString, ReadEntries, ReadItems, ReadNumber, Literal, NumeralText, ItemsAt, MembersAt, Blank, SkipNumber;
    if text[j] == '{' {
      ObjectRead(text, j, isNumber);
    } else if text[j] == '[' {
      ArrayRead(text, j, isNumber);
    } else if text[j] == '"' {
      StringIsLiteral(text, j);
    } else if StartsNumber(text[j]) {
      NumberIsNumeral(text, j, isNumber);
    }
  }

  lemma {:induction false} ArrayRead(text: string, j: nat, isNumber: string -> bool)
    requires j < |text| && text[j] == '[' && ReadArray(text, j + 1, isNumber).Ok?
    ensures var (v, end) := ReadArray(text, j + 1, isNumber).value; j <= end <= |text| && ValueAt(text, j, end, v, isNumber)
    decreases |text| - j, 0
  {
    hide ReadItems, ItemsAt, Blank, PaddedAt;
    var k := SkipSpace(text, j + 1);
    SkippedIsBlank(text, j + 1);
    if !CharAt(text, k, ']') {
      ItemsRead(text, k, [], isNumber);
      var (v, end) := ReadItems(text, k, [], isNumber).value;
      ItemsAfterSpace(text, j + 1, k, end - 1, v.items, isNumber);
    }
  }

  /** White space before the first item belongs to it. */
  lemma ItemsAfterSpace(text: string, i: nat, k: nat, j: nat, items: seq<OrderedValue>, isNumber: string -> bool)
    requires i <= k <= j <= |text| && items != [] && Blank(text, i, k) && ItemsAt(text, k, j, items, isNumber)
    ensures ItemsAt(text, i, j, items, isNumber)
  {
    hide ValueAt;
    var n := if |items| == 1 then j else
      var n :| k <= n < j && text[n] == ',' && PaddedAt(text, k, n, items[0], isNumber) && ItemsAt(text, n + 1, j, items[1..], isNumber);
      n;
    var a, b :| k <= a <= b <= n && Blank(text, k, a) && ValueAt(text, a, b, items[0], isNumber) && Blank(text, b, n);
    assert Blank(text, i, a);
    assert PaddedAt(text, i, n, items[0], isNumber);
  }

  lemma {:induction false} ItemsRead(text: string, i: nat, acc: seq<OrderedValue>, isNumber: string -> bool)
    requires i <= |text| && ReadItems(text, i, acc, isNumber).Ok?
    ensures var (v, end) := ReadItems(text, i, acc, isNumber).value;
            && v.OArray? && |acc| < |v.items| && v.items[..|acc|] == acc && i < end <= |text| && text[end - 1] == ']'
            && ItemsAt(text, i, end - 1, v.items[|acc|..], isNumber)
    decreases |text| - i, 2
  {
    hide ReadValue, ValueAt, ItemsAt, PaddedAt;
    ValueRead(text, i, isNumber);
    var value := ReadValue(text, i, isNumber).value;
    var n := SkipSpace(text, value.1);
    ItemPadded(text, i, value.1, n, value.0, isNumber);
    var (v, end) := ReadItems(text, i, acc, isNumber).value;
    if CharAt(text, n, ',') {
      var next := acc + [value.0];
      ItemsRead(text, n + 1, next, isNumber);
      Continued(v.items, acc, value.0);
      MoreItems(text, i, n, end - 1, v.items[|acc|..], isNumber);
    } else {
      assert v.items[|acc|..] == [value.0];
      LastItem(text, i, n, value.0, isNumber);
    }
  }

  lemma Continued<T>(all: seq<T>, acc: seq<T>, x: T)
    requires |acc| < |all| && all[..|acc| + 1] == acc + [x]
    ensures all[..|acc|] == acc && all[|acc|] == x && all[|acc|..][1..] == all[|acc| + 1..] && all[|acc|..][0] == x
  {
    assert all[|acc|] == all[..|acc| + 1][|acc|];
    assert all[..|acc|] == all[..|acc| + 1][..|acc|];
  }

  lemma ItemPadded(text: string, i: nat, end: nat, n: nat, v: OrderedValue, isNumber: string -> bool)
    requires i <= |text| && SkipSpace(text, i) <= end <= |text| && n == SkipSpace(text, end)
    requires ValueAt(text, SkipSpace(text, i), end, v, isNumber)
    ensures PaddedAt(text, i, n, v, isNumber)
  {
    SkippedIsBlank(text, i);
    SkippedIsBlank(text, end);
    hide ValueAt, Blank, SkipSpace;
  }

  lemma MoreItems(text: string, i: nat, n: nat, j: nat, items: seq<OrderedValue>, isNumber: string -> bool)
    requires i <= n < j <= |text| && |items| > 1 && text[n] == ',' && PaddedAt(text, i, n, items[0], isNumber)
    requires ItemsAt(text, n + 1, j, items[1..], isNumber)
    ensures ItemsAt(text, i, j, items, isNumber)
  {
    hide PaddedAt;
  }

  lemma LastItem(text: string, i: nat, j: nat, item: OrderedValue, isNumber: string -> bool)
    requires i <= j <= |text| && PaddedAt(text, i, j, item, isNumber)
    ensures ItemsAt(text, i, j, [item], isNumber)
  {
  }

  lemma {:induction false} ObjectRead(text: string, j: nat, isNumber: string -> bool)
    requires j < |text| && text[j] == '{' && ReadObject(text, j + 1, isNumber).Ok?
    ensures var (v, end) := ReadObject(text, j + 1, isNumber).value; j <= end <= |text| && ValueAt(text, j, end, v, isNumber)
    decreases |text| - j, 0
  {
    hide ReadEntries, MembersAt, Blank, PaddedAt;
    var k := SkipSpace(text, j + 1);
    SkippedIsBlank(text, j + 1);
    if !CharAt(text, k, '}') {
      MembersRead(text, k, [], isNumber);
      var (v, end) := ReadEntries(text, k, [], isNumber).value;
      MembersAfterSpace(text, j + 1, k, end - 1, v.entries, isNumber);
    }
  }

  lemma MembersAfterSpace(text: string, i: nat, k: nat, j: nat, entries: seq<(string, OrderedValue)>, isNumber: string -> bool)
    requires i <= k <= j <= |text| && entries != [] && Blank(text, i, k) && MembersAt(text, k, j, entries, isNumber)
    ensures MembersAt(text, i, j, entries, isNumber)
  {
    hide MemberAt;
    var n := if |entries| == 1 then j else
      var n :| k <= n < j && text[n] == ',' && MemberAt(text, k, n, entries[0], isNumber) && MembersAt(text, n + 1, j, entries[1..], isNumber);
      n;
    MemberAfterSpace(text, i, k, n, entries[0], isNumber);
  }

  lemma MemberAfterSpace(text: string, i: nat, k: nat, n: nat, entry: (string, OrderedValue), isNumber: string -> bool)
    requires i <= k <= n <= |text| && Blank(text, i, k) && MemberAt(text, k, n, entry, isNumber)
    ensures MemberAt(text, i, n, entry, isNumber)
  {
    hide PaddedAt, Literal;
    var a, b, c :| k <= a <= b <= c < n && Blank(text, k, a) && Literal(text[a..b], entry.0) && Blank(text, b, c)
                   && text[c] == ':' && PaddedAt(text, c + 1, n, entry.1, isNumber);
    assert Blank(text, i, a);
  }

  lemma {:induction false} MembersRead(text: string, i: nat, acc: seq<(string, OrderedValue)>, isNumber: string -> bool)
    requires i <= |text| && ReadEntries(text, i, acc, isNumber).Ok?
    ensures var (v, end) := ReadEntries(text, i, acc, isNumber).value;
            && v.OObject? && |acc| < |v.entries| && v.entries[..|acc|] == acc && i < end <= |text| && text[end - 1] == '}'
            && MembersAt(text, i, end - 1, v.entries[|acc|..], isNumber)
    decreases |text| - i, 3
  {
    hide ReadEntries, MembersAt, MemberAt;
    var entry, n := MemberHere(text, i, acc, isNumber);
    var (v, end) := ReadEntries(text, i, acc, isNumber).value;
    if text[n] == ',' {
      MembersRead(text, n + 1, acc + [entry], isNumber);
      Continued(v.entries, acc, entry);
      MoreMembers(text, i, n, end - 1, v.entries[|acc|..], isNumber);
    } else {
      assert v.entries[|acc|..] == [entry];
      LastMember(text, i, n, entry, isNumber);
    }
  }

  /** The first member that is read, and what stands behind it. */
  lemma {:induction false} MemberHere(text: string, i: nat, acc: seq<(string, OrderedValue)>, isNumber: string -> bool)
    returns (entry: (string, OrderedValue), n: nat)
    requires i <= |text| && ReadEntries(text, i, acc, isNumber).Ok?
    ensures i <= n < |text| && MemberAt(text, i, n, entry, isNumber)
    ensures (text[n] == ',' && ReadEntries(text, i, acc, isNumber) == ReadEntries(text, n + 1, acc + [entry], isNumber))
            || (text[n] == '}' && ReadEntries(text, i, acc, isNumber) == Ok((OObject(acc + [entry]), n + 1)))
    decreases |text| - i, 2
  {
    hide *;
    var b, value;
    entry, b, value, n := EntryParts(text, i, acc, isNumber);
    ValueRead(text, SkipSpace(text, b) + 1, isNumber);
    MemberRead(text, i, b, n, entry.0, entry.1, isNumber);
    SpaceMoves(text, i);
    SpaceMoves(text, b);
    SpaceMoves(text, SkipSpace(text, b) + 1);
    SpaceMoves(text, value.1);
  }

  lemma SpaceMoves(text: string, i: nat)
    requires i <= |text|
    ensures i <= SkipSpace(text, i) <= |text|
  {
  }

  /** The pieces of a member that is read: the end of its key, its value, and the mark behind it. */
  lemma EntryParts(text: string, i: nat, acc: seq<(string, OrderedValue)>, isNumber: string -> bool)
    returns (entry: (string, OrderedValue), b: nat, value: (OrderedValue, nat), n: nat)
    requires i <= |text| && ReadEntries(text, i, acc, isNumber).Ok?
    ensures CharAt(text, SkipSpace(text, i), '"') && ReadString(text, SkipSpace(text, i)) == Ok((entry.0, b))
    ensures SkipSpace(text, i) < b <= |text| && CharAt(text, SkipSpace(text, b), ':') && b <= SkipSpace(text, b) < |text|
    ensures ReadValue(text, SkipSpace(text, b) + 1, isNumber) == Ok(value) && entry.1 == value.0
    ensures SkipSpace(text, b) + 1 < value.1 <= |text| && n == SkipSpace(text, value.1) && i <= n < |text|
    ensures (text[n] == ',' && ReadEntries(text, i, acc, isNumber) == ReadEntries(text, n + 1, acc + [entry], isNumber))
            || (text[n] == '}' && ReadEntries(text, i, acc, isNumber) == Ok((OObject(acc + [entry]), n + 1)))
  {
    hide ReadValue, ReadString, ReadEntries, Names, SkipSpace;
    EntryStep(text, i, acc, isNumber);
    var key := ReadString(text, SkipSpace(text, i)).value;
    b := key.1;
    value := ReadValue(text, SkipSpace(text, b) + 1, isNumber).value;
    n := SkipSpace(text, value.1);
    entry := (key.0, value.0);
  }

  lemma MemberRead(text: string, i: nat, b: nat, n: nat, key: string, v: OrderedValue, isNumber: string -> bool)
    requires i <= |text| && CharAt(text, SkipSpace(text, i), '"') && ReadString(text, SkipSpace(text, i)) == Ok((key, b))
    requires CharAt(text, SkipSpace(text, b), ':')
    requires var c := SkipSpace(text, b) + 1;
             ReadValue(text, c, isNumber).Ok? && ReadValue(text, c, isNumber).value.0 == v
             && n == SkipSpace(text, ReadValue(text, c, isNumber).value.1)
             && SkipSpace(text, c) <= ReadValue(text, c, isNumber).value.1 <= |text|
             && ValueAt(text, SkipSpace(text, c), ReadValue(text, c, isNumber).value.1, v, isNumber)
    ensures MemberAt(text, i, n, (key, v), isNumber)
  {
    hide ReadValue, ReadString, ValueAt, SkipSpace, Literal, PaddedAt;
    var a, c := SkipSpace(text, i), SkipSpace(text, b);
    SkippedIsBlank(text, i);
    SkippedIsBlank(text, b);
    StringIsLiteral(text, a);
    ItemPadded(text, c + 1, ReadValue(text, c + 1, isNumber).value.1, n, v, isNumber);
    hide Blank;
  }

  lemma MoreMembers(text: string, i: nat, n: nat, j: nat, entries: seq<(string, OrderedValue)>, isNumber: string -> bool)
    requires i <= n < j <= |text| && |entries| > 1 && text[n] == ',' && MemberAt(text, i, n, entries[0], isNumber)
    requires MembersAt(text, n + 1, j, entries[1..], isNumber)
    ensures MembersAt(text, i, j, entries, isNumber)
  {
    hide MemberAt;
  }

  lemma LastMember(text: string, i: nat, j: nat, entry: (string, OrderedValue), isNumber: string -> bool)
    requires i <= j <= |text| && MemberAt(text, i, j, entry, isNumber)
    ensures MembersAt(text, i, j, [entry], isNumber)
  {
  }

  /**
   * What is accepted is a document: a parsed text is, to its last character, a text of the value that is
   * returned, in which no object has a member twice.  Malformed texts are refused.
   */
  lemma ParsedIsWritten(text: string, isNumber: string -> bool, v: OrderedValue)
    requires Parse(text, isNumber) == Ok(v)
    ensures PaddedAt(text, 0, |text|, v, isNumber) && DistinctMembers(v)
  {
    hide ReadValue, ValueAt, PaddedAt;
    ValueRead(text, 0, isNumber);
    var end := ReadValue(text, 0, isNumber).value.1;
    ItemPadded(text, 0, end, SkipSpace(text, end), v, isNumber);
    ParsedMembersAreDistinct(text, isNumber);
  }
}
