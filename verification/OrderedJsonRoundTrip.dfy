/**
 * What the ordered parser gives back: every text of a value, however it is laid out, as long as the scan
 * for closing quotes is not led astray; and only objects whose members are distinct.
 */
module OrderedJsonRoundTrip {
  import opened Prelude
  import opened CanonicalText
  import opened SchemaCatalog
  import opened OrderedJson

  /* ---------- texts of values ---------- */

  /** A value as it is written: its numerals and the white space around its parts. */
  datatype Doc =
    | NullDoc
    | BoolDoc(flag: bool)
    | NumberDoc(numeral: string)
    | StringDoc(text: string)
    | ArrayDoc(space: string, items: seq<Slot>)
    | ObjectDoc(space: string, members: seq<Member>)

  /** A part with the white space before and after it. */
  datatype Slot = Slot(before: string, doc: Doc, after: string)

  datatype Member = Member(before: string, key: string, middle: string, slot: Slot)

  function DocText(d: Doc): string
    decreases d, 1
  {
    match d
    case NullDoc => "null"
    case BoolDoc(flag) => if flag then "true" else "false"
    case NumberDoc(numeral) => numeral
    case StringDoc(text) => CanonicalString(text)
    case ArrayDoc(space, items) => if items == [] then "[" + space + "]" else "[" + ItemsText(items) + "]"
    case ObjectDoc(space, members) => if members == [] then "{" + space + "}" else "{" + MembersText(members) + "}"
  }

  function SlotText(s: Slot): string
    decreases s, 2
  {
    s.before + DocText(s.doc) + s.after
  }

  function ItemsText(items: seq<Slot>): string
    requires items != []
    decreases items, 0
  {
    SlotText(items[0]) + if |items| == 1 then "" else "," + ItemsText(items[1..])
  }

  function MemberText(m: Member): string
    decreases m, 3
  {
    m.before + CanonicalString(m.key) + m.middle + ":" + SlotText(m.slot)
  }

  function MembersText(members: seq<Member>): string
    requires members != []
    decreases members, 0
  {
    MemberText(members[0]) + if |members| == 1 then "" else "," + MembersText(members[1..])
  }

  /** The value that a text stands for, its members in the order written. */
  function ValueOf(d: Doc): OrderedValue
    decreases d, 1
  {
    match d
    case NullDoc => ONull
    case BoolDoc(flag) => OBool(flag)
    case NumberDoc(_) => ONumber
    case StringDoc(text) => OString(text)
    case ArrayDoc(_, items) => OArray(ItemValues(items))
    case ObjectDoc(_, members) => OObject(MemberValues(members))
  }

  function ItemValues(items: seq<Slot>): seq<OrderedValue>
    decreases items, 0
  {
    if items == [] then [] else [ValueOf(items[0].doc)] + ItemValues(items[1..])
  }

  function MemberValues(members: seq<Member>): seq<(string, OrderedValue)>
    decreases members, 0
  {
    if members == [] then [] else [(members[0].key, ValueOf(members[0].slot.doc))] + MemberValues(members[1..])
  }

  ghost predicate AllSpace(s: string) {
    forall i :: 0 <= i < |s| ==> IsSpace(s[i])
  }

  /** The bytes of a character as it is spelled inside a string. */
  function SpelledWidth(c: char): (bytes: nat)
    ensures 1 <= bytes <= 6
  {
    if |EscapeChar(c)| == 1 then Width(c) else if c < ' ' && |EscapeChar(c)| == 6 then 6 else 2
  }

  /** The bytes that the scan jumps over behind the spelling of the first character. */
  function Jump(s: string): nat {
    if |s| > 1 && s[0] == '\\' && s[1] == 'u' then 4 else 0
  }

  /**
   * The strings whose closing quote the scan finds, when the next `skip` bytes are jumped over.  A double
   * quote that is not jumped over ends the scan too early; a backslash before a `u` makes it jump over
   * the `u` and three bytes more; and a jump must not reach the closing quote.
   */
  predicate Followable(s: string, skip: nat)
    decreases |s|
  {
    if s == "" then skip == 0
    else if skip >= SpelledWidth(s[0]) then Followable(s[1..], skip - SpelledWidth(s[0]))
    else s[0] != '"' && Followable(s[1..], Jump(s))
  }

  ghost predicate Numeral(n: string, isNumber: string -> bool) {
    n != "" && StartsNumber(n[0]) && isNumber(n) && forall i :: 0 <= i < |n| ==> IsNumberChar(n[i])
  }

  /** Written with white space only between its parts and with numerals that pass. */
  ghost predicate Written(d: Doc, isNumber: string -> bool)
    decreases d, 1
  {
    match d
    case NullDoc => true
    case BoolDoc(_) => true
    case NumberDoc(numeral) => Numeral(numeral, isNumber)
    case StringDoc(_) => true
    case ArrayDoc(space, items) => AllSpace(space) && WrittenItems(items, isNumber)
    case ObjectDoc(space, members) => AllSpace(space) && WrittenMembers(members, isNumber)
  }

  ghost predicate WrittenSlot(s: Slot, isNumber: string -> bool)
    decreases s, 2
  {
    AllSpace(s.before) && Written(s.doc, isNumber) && AllSpace(s.after)
  }

  ghost predicate WrittenItems(items: seq<Slot>, isNumber: string -> bool)
    decreases items, 0
  {
    items != [] ==> WrittenSlot(items[0], isNumber) && WrittenItems(items[1..], isNumber)
  }

  ghost predicate WrittenMembers(members: seq<Member>, isNumber: string -> bool)
    decreases members, 0
  {
    members != [] ==>
      AllSpace(members[0].before) && AllSpace(members[0].middle)
      && WrittenSlot(members[0].slot, isNumber) && WrittenMembers(members[1..], isNumber)
  }

  /** No object with a key twice, and no string that the scan loses, at any depth. */
  ghost predicate Readable(d: Doc)
    decreases d
  {
    match d
    case StringDoc(text) => Followable(text, 0)
    case ArrayDoc(_, items) => forall i :: 0 <= i < |items| ==> Readable(items[i].doc)
    case ObjectDoc(_, members) =>
      DistinctKeys(members)
      && forall i :: 0 <= i < |members| ==> Followable(members[i].key, 0) && Readable(members[i].slot.doc)
    case _ => true
  }

  ghost predicate DistinctKeys(members: seq<Member>) {
    forall i, j :: 0 <= i < j < |members| ==> members[i].key != members[j].key
  }

  /** The first string that is lost or key that is repeated, in the order written. */
  function FaultOf(d: Doc): Option<Fault>
    decreases d, 1
  {
    match d
    case StringDoc(text) => if Followable(text, 0) then None else Some(Malformed)
    case ArrayDoc(_, items) => ItemsFault(items)
    case ObjectDoc(_, members) => MembersFault(members, {})
    case _ => None
  }

  function ItemsFault(items: seq<Slot>): Option<Fault>
    decreases items, 0
  {
    if items == [] then None else
    var fault := FaultOf(items[0].doc);
    if fault.Some? then fault else ItemsFault(items[1..])
  }

  function MembersFault(members: seq<Member>, seen: set<string>): Option<Fault>
    decreases members, 0
  {
    if members == [] then None else
    var m := members[0];
    if !Followable(m.key, 0) then Some(Malformed)
    else if m.key in seen then Some(Repeated(m.key))
    else
      var fault := FaultOf(m.slot.doc);
      if fault.Some? then fault else MembersFault(members[1..], seen + {m.key})
  }

  function Outcome<T>(fault: Option<Fault>, value: T): Result<T, Fault> {
    if fault.Some? then Err(fault.value) else Ok(value)
  }

  /* ---------- places in a text ---------- */

  /** `part` stands at `i`. */
  ghost predicate At(text: string, i: nat, part: string) {
    i + |part| <= |text| && text[i..i + |part|] == part
  }

  lemma AtSplit(text: string, i: nat, a: string, b: string)
    requires At(text, i, a + b)
    ensures At(text, i, a) && At(text, i + |a|, b)
  {
    assert text[i..i + |a|] == (a + b)[..|a|];
    assert text[i + |a|..i + |a| + |b|] == (a + b)[|a|..];
  }

  lemma AtThree(text: string, i: nat, a: string, b: string, c: string)
    requires At(text, i, a + b + c)
    ensures At(text, i, a) && At(text, i + |a|, b) && At(text, i + |a| + |b|, c)
  {
    hide At;
    AtSplit(text, i, a + b, c);
    AtSplit(text, i, a, b);
  }

  lemma AtIndex(text: string, i: nat, part: string, k: nat)
    requires At(text, i, part) && k < |part|
    ensures CharAt(text, i + k, part[k])
  {
    assert text[i..i + |part|][k] == part[k];
  }

  lemma AtChar(text: string, i: nat, c: char)
    requires At(text, i, [c])
    ensures CharAt(text, i, c)
  {
    assert text[i..i + 1][0] == c;
  }

  lemma {:induction false} SkipsSpace(text: string, i: nat, space: string)
    requires At(text, i, space) && AllSpace(space)
    ensures SkipSpace(text, i) == SkipSpace(text, i + |space|)
    decreases |space|
  {
    if space != "" {
      assert space == [space[0]] + space[1..];
      AtSplit(text, i, [space[0]], space[1..]);
      AtChar(text, i, space[0]);
      assert IsSpace(space[0]);
      SkipsSpace(text, i + 1, space[1..]);
    }
  }

  /** Skipping the white space of a slot ends at the character behind it. */
  lemma SkipsTo(text: string, i: nat, space: string, c: char)
    requires At(text, i, space) && AllSpace(space) && CharAt(text, i + |space|, c) && !IsSpace(c)
    ensures SkipSpace(text, i) == i + |space|
  {
    SkipsSpace(text, i, space);
  }

  /* ---------- strings ---------- */

  lemma EmptyEscape()
    ensures Escape("") == ""
  {
  }

  lemma EscapeFirst(s: string)
    requires s != ""
    ensures Escape(s) == EscapeChar(s[0]) + Escape(s[1..])
  {
    hide EscapeChar;
  }

  lemma EscapeFirstBefore(s: string, behind: string)
    requires s != ""
    ensures Escape(s) + behind == EscapeChar(s[0]) + (Escape(s[1..]) + behind)
  {
    hide EscapeChar;
  }

  lemma EscapeStart(c: char)
    ensures EscapeChar(c) != "" && (EscapeChar(c)[0] == 'u' <==> c == 'u')
  {
  }

  /** A jump over the whole spelling of a character goes on behind it. */
  lemma JumpPasses(c: char, text: string, i: nat, skip: nat)
    requires At(text, i, EscapeChar(c)) && skip >= SpelledWidth(c)
    ensures Advance(text, i, skip) == Advance(text, i + |EscapeChar(c)|, skip - SpelledWidth(c))
  {
    var e := EscapeChar(c);
    AtIndex(text, i, e, 0);
    if |e| == 1 {
    } else {
      SpellingIsNarrow(c);
      PassesNarrow(e, text, i, skip);
    }
  }

  lemma SpellingIsNarrow(c: char)
    requires |EscapeChar(c)| != 1
    ensures SpelledWidth(c) == |EscapeChar(c)| && forall k :: 0 <= k < |EscapeChar(c)| ==> Width(EscapeChar(c)[k]) == 1
  {
  }

  lemma {:induction false} PassesNarrow(e: string, text: string, i: nat, skip: nat)
    requires At(text, i, e) && (forall k :: 0 <= k < |e| ==> Width(e[k]) == 1) && skip >= |e|
    ensures Advance(text, i, skip) == Advance(text, i + |e|, skip - |e|)
    decreases |e|
  {
    if e != "" {
      assert e == [e[0]] + e[1..];
      AtSplit(text, i, [e[0]], e[1..]);
      AtChar(text, i, e[0]);
      PassesNarrow(e[1..], text, i + 1, skip - 1);
    }
  }

  /** A jump that does not reach the end of the spelling lands on one of its characters or behind it. */
  lemma JumpLands(c: char, text: string, i: nat, skip: nat)
    requires At(text, i, EscapeChar(c)) && skip < SpelledWidth(c)
    ensures Advance(text, i, skip) == i + if |EscapeChar(c)| == 1 then (if skip == 0 then 0 else 1) else skip
  {
    var e := EscapeChar(c);
    AtIndex(text, i, e, 0);
    if |e| == 1 {
      if skip > 0 {
        assert Advance(text, i + 1, 0) == i + 1;
      }
    } else {
      SpellingIsNarrow(c);
      assert e[..skip] + e[skip..] == e;
      AtSplit(text, i, e[..skip], e[skip..]);
      PassesNarrow(e[..skip], text, i, skip);
    }
  }

  /** Where the scan goes from inside the spelling of a character that is not jumped over whole. */
  lemma CharIsScanned(c: char, text: string, i: nat, skip: nat)
    requires At(text, i, EscapeChar(c)) && skip < SpelledWidth(c)
    ensures var end := StringEnd(text, Advance(text, i, skip));
            end == if c == '"' then Some(i + 2)
                   else if c == '\\' && CharAt(text, i + 2, 'u') then StringEnd(text, Advance(text, i + 2, 4))
                   else StringEnd(text, i + |EscapeChar(c)|)
  {
    var e := EscapeChar(c);
    JumpLands(c, text, i, skip);
    AtIndex(text, i, e, 0);
    AtIndex(text, i, e, |e| - 1);
    hide Advance, At;
    if |e| == 1 {
      PlainIsScanned(c, text, i);
    } else if |e| == 2 {
      PairIsScanned(c, text, i);
    } else {
      AtIndex(text, i, e, 1);
      AtIndex(text, i, e, 2);
      AtIndex(text, i, e, 3);
      AtIndex(text, i, e, 4);
      UnitIsScanned(text, i, skip);
    }
  }

  lemma PlainIsScanned(c: char, text: string, i: nat)
    requires CharAt(text, i, c) && |EscapeChar(c)| == 1
    ensures c != '"' && c != '\\' && StringEnd(text, i) == StringEnd(text, i + 1)
  {
  }

  lemma PairIsScanned(c: char, text: string, i: nat)
    requires |EscapeChar(c)| == 2 && CharAt(text, i, '\\') && CharAt(text, i + 1, EscapeChar(c)[1])
    ensures StringEnd(text, i) == StringEnd(text, i + 1)
    ensures StringEnd(text, i + 1)
         == if c == '"' then Some(i + 2)
            else if c == '\\' && CharAt(text, i + 2, 'u') then StringEnd(text, Advance(text, i + 2, 4))
            else StringEnd(text, i + 2)
  {
    hide Advance;
  }

  /** The spelling of a control character by its number; `skip` can land on the backslash or behind it. */
  lemma UnitIsScanned(text: string, i: nat, skip: nat)
    requires CharAt(text, i, '\\') && CharAt(text, i + 1, 'u') && i + 5 < |text| && skip < 6
    requires forall k :: i + 2 <= k <= i + 5 ==> HexValue(text[k]).Some?
    ensures StringEnd(text, i + skip) == StringEnd(text, i + 6)
  {
    assert forall k :: i + 2 <= k <= i + 5 ==> ' ' < text[k] < '\U{80}' && text[k] != '"' && text[k] != '\\';
    assert Advance(text, i + 1, 4) == Advance(text, i + 2, 3) == Advance(text, i + 3, 2) == Advance(text, i + 4, 1) == i + 5;
    assert StringEnd(text, i + 5) == StringEnd(text, i + 6);
    assert StringEnd(text, i + 4) == StringEnd(text, i + 5);
    assert StringEnd(text, i + 3) == StringEnd(text, i + 4);
    assert StringEnd(text, i + 2) == StringEnd(text, i + 3);
  }

  /** The scan ends at the spelling of a double quote of the string. */
  ghost predicate StopsInside(s: string, i: nat, end: nat) {
    exists h :: 0 <= h < |s| && s[h] == '"' && end == i + |Escape(s[..h])| + 2
  }

  lemma StopsLater(s: string, i: nat, end: nat)
    requires s != "" && StopsInside(s[1..], i + |EscapeChar(s[0])|, end)
    ensures StopsInside(s, i, end)
  {
    var rest := s[1..];
    var h :| 0 <= h < |rest| && rest[h] == '"' && end == i + |EscapeChar(s[0])| + |Escape(rest[..h])| + 2;
    var longer := s[..h + 1];
    assert longer[0] == s[0] && longer[1..] == rest[..h];
    EscapeFirst(longer);
  }

  /** Behind an escaped backslash stands a `u` exactly if it stands there in the string. */
  lemma NextIsU(s: string, text: string, i: nat)
    requires s != "" && s[0] == '\\' && Spelled(s[1..], text, i + 2)
    ensures CharAt(text, i + 2, 'u') <==> |s| > 1 && s[1] == 'u'
  {
    var rest := s[1..];
    if rest == "" {
      EmptyEscape();
    } else {
      EscapeFirst(rest);
      EscapeStart(rest[0]);
      hide Escape, EscapeChar;
      AtIndex(text, i + 2, Escape(rest), 0);
    }
  }

  /** What the scan makes of a spelled string, exactly, whatever the text around it. */
  ghost predicate Scanned(s: string, skip: nat, i: nat, end: Option<nat>) {
    if Followable(s, skip) then end == Some(i + |Escape(s)| + 1)
    else end.Some? ==> StopsInside(s, i, end.value) || end.value > i + |Escape(s)| + 1
  }

  /** The spelling of a string, without its opening quote, stands at `i`. */
  ghost predicate Spelled(s: string, text: string, i: nat) {
    At(text, i, Escape(s)) && CharAt(text, i + |Escape(s)|, '"')
  }

  lemma {:induction false} EscapeIsScanned(s: string, text: string, i: nat, skip: nat)
    requires Spelled(s, text, i)
    ensures Scanned(s, skip, i, StringEnd(text, Advance(text, i, skip)))
    decreases |s|
  {
    hide *;
    if s == "" {
      NothingIsScanned(text, i, skip);
    } else if skip < SpelledWidth(s[0]) && s[0] == '"' {
      QuoteIsScanned(s, text, i, skip);
    } else {
      var jump := ScanStep(s, text, i, skip);
      EscapeIsScanned(s[1..], text, i + |EscapeChar(s[0])|, jump);
      ScannedLater(s, skip, i, jump, StringEnd(text, Advance(text, i, skip)));
    }
  }

  lemma SpelledLater(s: string, text: string, i: nat)
    requires s != "" && Spelled(s, text, i)
    ensures At(text, i, EscapeChar(s[0])) && Spelled(s[1..], text, i + |EscapeChar(s[0])|)
  {
    hide Escape, EscapeChar, At;
    EscapeFirst(s);
    AtSplit(text, i, EscapeChar(s[0]), Escape(s[1..]));
  }

  lemma ScanStep(s: string, text: string, i: nat, skip: nat) returns (jump: nat)
    requires s != "" && Spelled(s, text, i) && !(skip < SpelledWidth(s[0]) && s[0] == '"')
    ensures var next := i + |EscapeChar(s[0])|;
            && Spelled(s[1..], text, next)
            && StringEnd(text, Advance(text, i, skip)) == StringEnd(text, Advance(text, next, jump))
    ensures Followable(s, skip) <==> Followable(s[1..], jump)
  {
    hide *;
    SpelledLater(s, text, i);
    FollowStep(s, skip);
    if skip >= SpelledWidth(s[0]) {
      JumpPasses(s[0], text, i, skip);
      return skip - SpelledWidth(s[0]);
    }
    HeadIsScanned(s, text, i, skip);
    return Jump(s);
  }

  lemma QuoteIsScanned(s: string, text: string, i: nat, skip: nat)
    requires s != "" && Spelled(s, text, i) && skip < SpelledWidth(s[0]) && s[0] == '"'
    ensures Scanned(s, skip, i, StringEnd(text, Advance(text, i, skip)))
  {
    hide *;
    HeadIsScanned(s, text, i, skip);
    FollowStep(s, skip);
    StopsHere(s, i);
    ScannedNow(s, skip, i);
  }

  lemma FollowStep(s: string, skip: nat)
    requires s != ""
    ensures Followable(s, skip)
        <==> if skip >= SpelledWidth(s[0]) then Followable(s[1..], skip - SpelledWidth(s[0]))
             else s[0] != '"' && Followable(s[1..], Jump(s))
  {
    hide SpelledWidth, Jump;
  }

  lemma ScannedNow(s: string, skip: nat, i: nat)
    requires !Followable(s, skip) && StopsInside(s, i, i + 2)
    ensures Scanned(s, skip, i, Some(i + 2))
  {
    hide Followable, StopsInside;
  }

  /** The scan over the spelling of a first character that is not jumped over whole. */
  lemma HeadIsScanned(s: string, text: string, i: nat, skip: nat)
    requires s != "" && Spelled(s, text, i) && skip < SpelledWidth(s[0])
    ensures var end := StringEnd(text, Advance(text, i, skip));
            if s[0] == '"' then end == Some(i + 2)
            else end == StringEnd(text, Advance(text, i + |EscapeChar(s[0])|, Jump(s)))
  {
    hide Escape, EscapeChar, StringEnd, At, Advance, SpelledWidth;
    var c := s[0];
    SpelledLater(s, text, i);
    CharIsScanned(c, text, i, skip);
    NoJump(text, i + |EscapeChar(c)|);
    if c == '\\' {
      BackslashIsTwo();
      NextIsU(s, text, i);
    }
  }

  lemma BackslashIsTwo()
    ensures |EscapeChar('\\')| == 2
  {
  }

  lemma NoJump(text: string, i: nat)
    ensures Advance(text, i, 0) == i
  {
  }

  lemma NothingIsScanned(text: string, i: nat, skip: nat)
    requires Spelled("", text, i)
    ensures Scanned("", skip, i, StringEnd(text, Advance(text, i, skip)))
  {
    EmptyEscape();
    if skip > 0 {
      assert Width('"') == 1 && Advance(text, i, skip) >= i + 1;
    }
  }

  lemma StopsHere(s: string, i: nat)
    requires s != "" && s[0] == '"'
    ensures StopsInside(s, i, i + 2)
  {
    EmptyEscape();
    assert s[..0] == "";
  }

  lemma ScannedLater(s: string, skip: nat, i: nat, jump: nat, end: Option<nat>)
    requires s != "" && Scanned(s[1..], jump, i + |EscapeChar(s[0])|, end)
    requires Followable(s, skip) <==> Followable(s[1..], jump)
    ensures Scanned(s, skip, i, end)
  {
    hide Followable, EscapeChar, Escape, StopsInside;
    EscapeFirst(s);
    if end.Some? && StopsInside(s[1..], i + |EscapeChar(s[0])|, end.value) {
      StopsLater(s, i, end.value);
    }
  }

  /** The spelling of a double quote inside a string. */
  const QUOTE := "\\\""

  /** An escaped quote does not close a string. */
  lemma {:induction false} QuoteIsNoEnd(s: string)
    ensures Unescape(Escape(s) + QUOTE) == None
  {
    if s == "" {
      assert Escape(s) + QUOTE == QUOTE && QUOTE[2..] == "";
    } else {
      QuoteIsNoEnd(s[1..]);
      EscapeFirstBefore(s, QUOTE);
      hide Escape, EscapeChar, Unescape;
      UnescapeEscapeChar(s[0], Escape(s[1..]) + QUOTE);
    }
  }

  /** A string with something behind its closing quote is none. */
  lemma {:induction false} NothingMayFollow(s: string, more: string)
    requires more != ""
    ensures Unescape(Escape(s) + "\"" + more) == None
  {
    if s == "" {
      assert Escape(s) + "\"" + more == "\"" + more;
    } else {
      NothingMayFollow(s[1..], more);
      EscapeFirstBefore(s, "\"" + more);
      hide Escape, EscapeChar, Unescape;
      var a, b := Escape(s), Escape(s[1..]);
      assert a + "\"" + more == a + ("\"" + more) && b + "\"" + more == b + ("\"" + more);
      UnescapeEscapeChar(s[0], b + ("\"" + more));
    }
  }

  /** A spelling that the scan cuts short, or runs past, is no string. */
  lemma CutShort(s: string, text: string, i: nat, end: nat)
    requires At(text, i, CanonicalString(s)) && StopsInside(s, i + 1, end) && end <= |text|
    ensures i < end && ParseString(text[i..end]) == None
  {
    hide CanonicalString, ParseString, Escape, At;
    var h :| 0 <= h < |s| && s[h] == '"' && end == i + 1 + |Escape(s[..h])| + 2;
    QuoteSplits(s, h);
    CutText(text, i, s[..h], Escape(s[h + 1..]) + "\"", s);
    CutIsNone(s[..h]);
  }

  lemma QuoteSplits(s: string, h: nat)
    requires h < |s| && s[h] == '"'
    ensures CanonicalString(s) == "\"" + (Escape(s[..h]) + (QUOTE + (Escape(s[h + 1..]) + "\"")))
  {
    var head, tail := s[..h], s[h + 1..];
    assert s == head + ("\"" + tail);
    EscapeConcat(head, "\"" + tail);
    EscapeQuoted(tail);
    hide Escape;
  }

  lemma CutIsNone(head: string)
    ensures ParseString("\"" + Escape(head) + QUOTE) == None
  {
    hide Escape, Unescape;
    QuoteIsNoEnd(head);
    assert ("\"" + Escape(head) + QUOTE)[1..] == Escape(head) + QUOTE;
  }

  lemma CutText(text: string, i: nat, head: string, rest: string, s: string)
    requires At(text, i, CanonicalString(s)) && CanonicalString(s) == "\"" + (Escape(head) + (QUOTE + rest))
    ensures i + 1 + |Escape(head)| + 2 <= |text|
    ensures text[i..i + 1 + |Escape(head)| + 2] == "\"" + Escape(head) + QUOTE
  {
    var a := Escape(head);
    assert CanonicalString(s) == ("\"" + a + QUOTE) + rest;
    hide Escape, CanonicalString;
    AtSplit(text, i, "\"" + a + QUOTE, rest);
  }

  lemma EscapeQuoted(tail: string)
    ensures Escape("\"" + tail) == QUOTE + Escape(tail)
  {
    var quoted := "\"" + tail;
    assert quoted[1..] == tail && EscapeChar(quoted[0]) == QUOTE;
    hide Escape, EscapeChar;
    EscapeFirst(quoted);
  }

  lemma {:induction false} EscapeConcat(s: string, t: string)
    ensures Escape(s + t) == Escape(s) + Escape(t)
  {
    hide Escape, EscapeChar;
    if s == "" {
      EmptyEscape();
      assert s + t == t && "" + Escape(t) == Escape(t);
    } else {
      EscapeConcat(s[1..], t);
      assert (s + t)[1..] == s[1..] + t && (s + t)[0] == s[0];
      EscapeFirstBefore(s, Escape(t));
      EscapeFirst(s + t);
    }
  }

  lemma RunPast(s: string, text: string, i: nat, end: nat)
    requires At(text, i, CanonicalString(s)) && i + |CanonicalString(s)| < end <= |text|
    ensures ParseString(text[i..end]) == None
  {
    var more := text[i + |CanonicalString(s)|..end];
    NothingMayFollow(s, more);
    hide Escape, Unescape;
    assert text[i..end] == CanonicalString(s) + more;
    assert text[i..end][1..] == Escape(s) + "\"" + more;
  }

  /**
   * Strings, exactly: wherever the spelling of a string stands, it is read back and left behind if the scan
   * can follow it, and refused otherwise.
   */
  lemma StringReads(s: string, text: string, i: nat)
    requires At(text, i, CanonicalString(s))
    ensures ReadString(text, i) == if Followable(s, 0) then Ok((s, i + |CanonicalString(s)|)) else Err(Malformed)
  {
    hide Escape, StringEnd, ParseString, StopsInside, Followable;
    assert CanonicalString(s) == "\"" + (Escape(s) + "\"");
    AtSplit(text, i, "\"", Escape(s) + "\"");
    AtSplit(text, i + 1, Escape(s), "\"");
    AtChar(text, i + 1 + |Escape(s)|, '"');
    NoJump(text, i + 1);
    EscapeIsScanned(s, text, i + 1, 0);
    var end := StringEnd(text, i + 1);
    if Followable(s, 0) {
      StringRoundTrip(s);
    } else if end.Some? {
      if StopsInside(s, i + 1, end.value) {
        CutShort(s, text, i, end.value);
      } else {
        RunPast(s, text, i, end.value);
      }
    }
  }

  /* ---------- values ---------- */

  /** A text starts with the first character of its value, which is neither white space nor a closing bracket. */
  lemma DocStart(d: Doc, isNumber: string -> bool)
    requires Written(d, isNumber)
    ensures DocText(d) != "" && !IsSpace(DocText(d)[0]) && DocText(d)[0] != ']' && DocText(d)[0] != '}'
  {
  }

  lemma ReadValueSkips(text: string, i: nat, isNumber: string -> bool)
    requires i <= |text|
    ensures ReadValue(text, SkipSpace(text, i), isNumber) == ReadValue(text, i, isNumber)
  {
    hide ReadObject, ReadArray, ReadString, ReadNumber, ReadLiteral;
    var j := SkipSpace(text, i);
    assert SkipSpace(text, j) == j;
  }

  lemma {:induction false} NumeralIsSkipped(text: string, i: nat, n: string)
    requires At(text, i, n) && (forall k :: 0 <= k < |n| ==> IsNumberChar(n[k]))
    requires i + |n| == |text| || !IsNumberChar(text[i + |n|])
    ensures SkipNumber(text, i) == i + |n|
    decreases |n|
  {
    if n != "" {
      assert n == [n[0]] + n[1..];
      AtSplit(text, i, [n[0]], n[1..]);
      AtChar(text, i, n[0]);
      NumeralIsSkipped(text, i + 1, n[1..]);
    }
  }

  lemma NumberReads(n: string, text: string, i: nat, isNumber: string -> bool)
    requires Numeral(n, isNumber) && At(text, i, n) && (i + |n| == |text| || !IsNumberChar(text[i + |n|]))
    ensures ReadValue(text, i, isNumber) == Ok((ONumber, i + |n|))
  {
    AtIndex(text, i, n, 0);
    assert n == [n[0]] + n[1..];
    AtSplit(text, i, [n[0]], n[1..]);
    NumeralIsSkipped(text, i + 1, n[1..]);
    assert SkipSpace(text, i) == i;
  }

  /** What may stand behind a value for its end to be seen. */
  ghost predicate Delimited(d: Doc, text: string, end: nat) {
    d.NumberDoc? ==> end >= |text| || !IsNumberChar(text[end])
  }

  /** Any text of a value reads as the value, and the parser stops behind it; or the first fault is found. */
  lemma {:induction false} DocReads(d: Doc, text: string, i: nat, isNumber: string -> bool)
    requires Written(d, isNumber) && At(text, i, DocText(d)) && Delimited(d, text, i + |DocText(d)|)
    ensures ReadValue(text, i, isNumber) == Outcome(FaultOf(d), (ValueOf(d), i + |DocText(d)|))
    decreases d, 1
  {
    DocStart(d, isNumber);
    AtIndex(text, i, DocText(d), 0);
    assert SkipSpace(text, i) == i;
    hide ReadObject, ReadArray, ReadString, ReadNumber, At, SkipSpace, CanonicalString;
    match d
    case NullDoc => LiteralReads(d, text, i, isNumber);
    case BoolDoc(_) => LiteralReads(d, text, i, isNumber);
    case NumberDoc(numeral) => NumberReads(numeral, text, i, isNumber);
    case StringDoc(s) => StringReads(s, text, i);
    case ArrayDoc(_, _) => ArrayReads(d, text, i, isNumber);
    case ObjectDoc(_, _) => ObjectReads(d, text, i, isNumber);
  }

  lemma LiteralReads(d: Doc, text: string, i: nat, isNumber: string -> bool)
    requires (d.NullDoc? || d.BoolDoc?) && At(text, i, DocText(d))
    ensures ReadValue(text, i, isNumber) == Ok((ValueOf(d), i + |DocText(d)|))
  {
    hide ReadObject, ReadArray, ReadString, ReadNumber;
    AtIndex(text, i, DocText(d), 0);
    assert SkipSpace(text, i) == i;
  }

  lemma {:induction false} ArrayReads(d: Doc, text: string, i: nat, isNumber: string -> bool)
    requires d.ArrayDoc? && Written(d, isNumber) && At(text, i, DocText(d))
    ensures ReadArray(text, i + 1, isNumber) == Outcome(FaultOf(d), (ValueOf(d), i + |DocText(d)|))
    decreases d, 0
  {
    hide ReadValue, ReadItems, ItemsText, Written, At, SkipSpace, CharAt;
    WrittenParts(d, isNumber);
    if d.items == [] {
      assert DocText(d) == "[" + (d.space + "]");
      AtSplit(text, i, "[", d.space + "]");
      AtSplit(text, i + 1, d.space, "]");
      AtChar(text, i + 1 + |d.space|, ']');
      SkipsTo(text, i + 1, d.space, ']');
    } else {
      var inner := ItemsText(d.items) + "]";
      assert DocText(d) == "[" + inner;
      AtSplit(text, i, "[", inner);
      ItemsRead(d.items, text, i + 1, [], isNumber);
      FirstItemStart(d.items, text, i + 1, isNumber);
      ReadItemsSkips(text, i + 1, [], isNumber);
      assert [] + ItemValues(d.items) == ItemValues(d.items);
    }
  }

  lemma WrittenParts(d: Doc, isNumber: string -> bool)
    requires Written(d, isNumber)
    ensures d.ArrayDoc? ==> AllSpace(d.space) && WrittenItems(d.items, isNumber)
    ensures d.ObjectDoc? ==> AllSpace(d.space) && WrittenMembers(d.members, isNumber)
  {
  }

  lemma ReadItemsSkips(text: string, i: nat, acc: seq<OrderedValue>, isNumber: string -> bool)
    requires i <= |text|
    ensures ReadItems(text, SkipSpace(text, i), acc, isNumber) == ReadItems(text, i, acc, isNumber)
  {
    hide ReadValue;
    ReadValueSkips(text, i, isNumber);
  }

  lemma FirstItemStart(items: seq<Slot>, text: string, i: nat, isNumber: string -> bool)
    requires items != [] && WrittenItems(items, isNumber) && At(text, i, ItemsText(items) + "]")
    ensures i <= |text| && !CharAt(text, SkipSpace(text, i), ']')
  {
    hide Written, DocText, SlotText, At, SkipSpace, WrittenSlot;
    var s := items[0];
    AtSplit(text, i, ItemsText(items), "]");
    AtSplit(text, i, SlotText(s), if |items| == 1 then "" else "," + ItemsText(items[1..]));
    FirstSlotStart(s, text, i, isNumber);
  }

  lemma FirstSlotStart(s: Slot, text: string, i: nat, isNumber: string -> bool)
    requires WrittenSlot(s, isNumber) && At(text, i, SlotText(s))
    ensures i <= |text| && !CharAt(text, SkipSpace(text, i), ']')
  {
    DocStart(s.doc, isNumber);
    hide DocText, Written, At, SkipSpace;
    AtThree(text, i, s.before, DocText(s.doc), s.after);
    SlotStarts(s, text, i, isNumber);
    AtIndex(text, i + |s.before|, DocText(s.doc), 0);
  }

  /** A slot, up to the delimiter behind it. */
  lemma {:induction false} SlotReads(s: Slot, text: string, i: nat, c: char, isNumber: string -> bool)
    requires WrittenSlot(s, isNumber) && At(text, i, SlotText(s)) && CharAt(text, i + |SlotText(s)|, c)
    requires c == ',' || c == ']' || c == '}'
    ensures var r := ReadValue(text, i, isNumber);
            if FaultOf(s.doc).Some? then r == Err(FaultOf(s.doc).value)
            else r.Ok? && r.value.0 == ValueOf(s.doc) && SkipSpace(text, r.value.1) == i + |SlotText(s)|
    decreases s, 2
  {
    hide ReadValue, Written, DocText, ValueOf, At, AllSpace, SkipSpace;
    var t, j := DocText(s.doc), i + |s.before|;
    AtThree(text, i, s.before, t, s.after);
    SlotStarts(s, text, i, isNumber);
    SlotEnds(s, text, j + |t|, c);
    DocReads(s.doc, text, j, isNumber);
    ReadValueSkips(text, i, isNumber);
  }

  lemma SlotStarts(s: Slot, text: string, i: nat, isNumber: string -> bool)
    requires WrittenSlot(s, isNumber) && At(text, i, s.before) && At(text, i + |s.before|, DocText(s.doc))
    ensures i <= |text| && SkipSpace(text, i) == i + |s.before|
  {
    DocStart(s.doc, isNumber);
    hide DocText, Written, At, SkipSpace;
    AtIndex(text, i + |s.before|, DocText(s.doc), 0);
    SkipsTo(text, i, s.before, DocText(s.doc)[0]);
    AtInside(text, i, s.before);
  }

  lemma AtInside(text: string, i: nat, part: string)
    requires At(text, i, part)
    ensures i + |part| <= |text|
  {
  }

  /** Behind the value of a slot comes white space or the delimiter, so that a numeral ends there. */
  lemma SlotEnds(s: Slot, text: string, end: nat, c: char)
    requires At(text, end, s.after) && AllSpace(s.after) && CharAt(text, end + |s.after|, c)
    requires c == ',' || c == ']' || c == '}'
    ensures end <= |text| && SkipSpace(text, end) == end + |s.after| && Delimited(s.doc, text, end)
  {
    hide SkipSpace;
    SkipsTo(text, end, s.after, c);
    if s.after != "" {
      AtIndex(text, end, s.after, 0);
      assert IsSpace(s.after[0]);
    }
  }

  /** One step over the items: a value and the comma or bracket behind it. */
  lemma ItemStep(text: string, i: nat, acc: seq<OrderedValue>, isNumber: string -> bool)
    requires i <= |text|
    ensures var r := ReadValue(text, i, isNumber);
            if r.Err? then ReadItems(text, i, acc, isNumber) == Err(r.error)
            else
              var next, n := acc + [r.value.0], SkipSpace(text, r.value.1);
              && (CharAt(text, n, ',') ==> ReadItems(text, i, acc, isNumber) == ReadItems(text, n + 1, next, isNumber))
              && (CharAt(text, n, ']') ==> ReadItems(text, i, acc, isNumber) == Ok((OArray(next), n + 1)))
  {
    hide ReadValue, SkipSpace;
  }

  /** An item whose text is followed by a comma or a closing bracket. */
  lemma {:induction false} ItemReads(
      s: Slot, text: string, i: nat, c: char, acc: seq<OrderedValue>, isNumber: string -> bool)
    requires WrittenSlot(s, isNumber) && At(text, i, SlotText(s)) && CharAt(text, i + |SlotText(s)|, c) && (c == ',' || c == ']')
    ensures i <= |text|
    ensures var n, next, r := i + |SlotText(s)|, acc + [ValueOf(s.doc)], ReadItems(text, i, acc, isNumber);
            if FaultOf(s.doc).Some? then r == Err(FaultOf(s.doc).value)
            else if c == ',' then r == ReadItems(text, n + 1, next, isNumber)
            else r == Ok((OArray(next), n + 1))
    decreases s, 3
  {
    hide ReadValue, ReadItems, SlotText, WrittenSlot, ValueOf, FaultOf, At, SkipSpace;
    AtInside(text, i, SlotText(s));
    SlotReads(s, text, i, c, isNumber);
    ItemStep(text, i, acc, isNumber);
  }

  lemma {:induction false} ItemsRead(
      items: seq<Slot>, text: string, i: nat, acc: seq<OrderedValue>, isNumber: string -> bool)
    requires items != [] && WrittenItems(items, isNumber) && At(text, i, ItemsText(items) + "]")
    ensures i <= |text|
    ensures ReadItems(text, i, acc, isNumber)
         == Outcome(ItemsFault(items), (OArray(acc + ItemValues(items)), i + |ItemsText(items)| + 1))
    decreases items, 0
  {
    hide ReadItems, ItemsText, ItemValues, ValueOf, FaultOf, ItemsFault, SlotText, At, CharAt, WrittenItems, WrittenSlot;
    var s, rest := items[0], items[1..];
    FirstItem(items, isNumber);
    ItemsSplit(items, text, i);
    AddsItem(acc, items);
    var c := if |items| == 1 then ']' else ',';
    ItemReads(s, text, i, c, acc, isNumber);
    ItemsFaultStep(items);
    if |items| > 1 && FaultOf(s.doc).None? {
      ItemsRead(rest, text, i + |SlotText(s)| + 1, acc + [ValueOf(s.doc)], isNumber);
    }
  }

  lemma FirstItem(items: seq<Slot>, isNumber: string -> bool)
    requires items != [] && WrittenItems(items, isNumber)
    ensures WrittenSlot(items[0], isNumber) && WrittenItems(items[1..], isNumber)
  {
  }

  lemma ItemsFaultStep(items: seq<Slot>)
    requires items != []
    ensures FaultOf(items[0].doc).Some? ==> ItemsFault(items) == FaultOf(items[0].doc)
    ensures FaultOf(items[0].doc).None? ==> ItemsFault(items) == if |items| == 1 then None else ItemsFault(items[1..])
  {
    hide FaultOf;
  }

  lemma AddsItem(acc: seq<OrderedValue>, items: seq<Slot>)
    requires items != []
    ensures acc + ItemValues(items)
         == if |items| == 1 then acc + [ValueOf(items[0].doc)] else acc + [ValueOf(items[0].doc)] + ItemValues(items[1..])
  {
    hide ValueOf;
    assert |items| == 1 ==> ItemValues(items[1..]) == [];
  }

  lemma ItemsSplit(items: seq<Slot>, text: string, i: nat)
    requires items != [] && At(text, i, ItemsText(items) + "]")
    ensures var t := SlotText(items[0]);
            && At(text, i, t)
            && if |items| == 1 then ItemsText(items) == t && CharAt(text, i + |t|, ']')
               else && CharAt(text, i + |t|, ',') && At(text, i + |t| + 1, ItemsText(items[1..]) + "]")
                    && |ItemsText(items)| == |t| + 1 + |ItemsText(items[1..])|
  {
    hide SlotText, At, CharAt;
    var t := SlotText(items[0]);
    if |items| == 1 {
      assert ItemsText(items) == t + "" == t;
      AtSplit(text, i, t, "]");
      AtChar(text, i + |t|, ']');
    } else {
      var rest := ItemsText(items[1..]) + "]";
      assert ItemsText(items) + "]" == t + "," + rest;
      AtThree(text, i, t, ",", rest);
      AtChar(text, i + |t|, ',');
    }
  }

  lemma {:induction false} ObjectReads(d: Doc, text: string, i: nat, isNumber: string -> bool)
    requires d.ObjectDoc? && Written(d, isNumber) && At(text, i, DocText(d))
    ensures ReadObject(text, i + 1, isNumber) == Outcome(FaultOf(d), (ValueOf(d), i + |DocText(d)|))
    decreases d, 0
  {
    hide ReadEntries, MembersText, Written, At, SkipSpace, CharAt;
    WrittenParts(d, isNumber);
    if d.members == [] {
      assert DocText(d) == "{" + (d.space + "}");
      AtSplit(text, i, "{", d.space + "}");
      AtSplit(text, i + 1, d.space, "}");
      AtChar(text, i + 1 + |d.space|, '}');
      SkipsTo(text, i + 1, d.space, '}');
    } else {
      var inner := MembersText(d.members) + "}";
      assert DocText(d) == "{" + inner;
      AtSplit(text, i, "{", inner);
      MembersRead(d.members, text, i + 1, [], {}, isNumber);
      FirstMemberStart(d.members, text, i + 1, isNumber);
      ReadEntriesSkips(text, i + 1, [], isNumber);
      assert [] + MemberValues(d.members) == MemberValues(d.members);
    }
  }

  lemma ReadEntriesSkips(text: string, i: nat, acc: seq<(string, OrderedValue)>, isNumber: string -> bool)
    requires i <= |text|
    ensures ReadEntries(text, SkipSpace(text, i), acc, isNumber) == ReadEntries(text, i, acc, isNumber)
  {
    hide ReadValue, ReadString;
    assert SkipSpace(text, SkipSpace(text, i)) == SkipSpace(text, i);
  }

  /** Where a member's key starts. */
  lemma FirstMemberStart(members: seq<Member>, text: string, i: nat, isNumber: string -> bool)
    requires members != [] && WrittenMembers(members, isNumber) && At(text, i, MembersText(members) + "}")
    ensures i <= |text| && CharAt(text, SkipSpace(text, i), '"') && !CharAt(text, SkipSpace(text, i), '}')
  {
    hide CanonicalString, SlotText, At, MemberText;
    var m := members[0];
    var rest := (if |members| == 1 then "" else "," + MembersText(members[1..])) + "}";
    assert MembersText(members) + "}" == MemberText(m) + rest;
    AtSplit(text, i, MemberText(m), rest);
    MemberPlaces(m, text, i);
    AtInside(text, i, m.before);
    Quoted(m.key);
    AtIndex(text, i + |m.before|, CanonicalString(m.key), 0);
    SkipsTo(text, i, m.before, '"');
  }

  lemma Quoted(s: string)
    ensures CanonicalString(s) != "" && CanonicalString(s)[0] == '"'
  {
  }

  /** The keys read so far. */
  ghost predicate Seen(acc: seq<(string, OrderedValue)>, seen: set<string>) {
    forall key :: Names(acc, key) <==> key in seen
  }

  /** The key of a member and the colon behind it. */
  lemma MemberStart(m: Member, text: string, i: nat, isNumber: string -> bool)
    requires AllSpace(m.before) && AllSpace(m.middle) && At(text, i, MemberText(m))
    ensures var j := i + |m.before|;
            var k := j + |CanonicalString(m.key)|;
            && j < |text| && SkipSpace(text, i) == j && CharAt(text, j, '"')
            && ReadString(text, j) == (if Followable(m.key, 0) then Ok((m.key, k)) else Err(Malformed))
            && SkipSpace(text, k) == k + |m.middle| && CharAt(text, k + |m.middle|, ':')
            && At(text, k + |m.middle| + 1, SlotText(m.slot))
  {
    hide CanonicalString, SlotText, ReadString, At, SkipSpace, Followable;
    var key, slot := CanonicalString(m.key), SlotText(m.slot);
    var j := i + |m.before|;
    var k := j + |key|;
    MemberPlaces(m, text, i);
    Quoted(m.key);
    AtIndex(text, j, key, 0);
    SkipsTo(text, i, m.before, '"');
    StringReads(m.key, text, j);
    AtChar(text, k + |m.middle|, ':');
    SkipsTo(text, k, m.middle, ':');
  }

  lemma MemberPlaces(m: Member, text: string, i: nat)
    requires At(text, i, MemberText(m))
    ensures var j := i + |m.before|;
            var k := j + |CanonicalString(m.key)|;
            && At(text, i, m.before) && At(text, j, CanonicalString(m.key)) && At(text, k, m.middle)
            && At(text, k + |m.middle|, ":") && At(text, k + |m.middle| + 1, SlotText(m.slot))
    ensures |MemberText(m)| == |m.before| + |CanonicalString(m.key)| + |m.middle| + 1 + |SlotText(m.slot)|
  {
    hide CanonicalString, SlotText, At;
    var key, slot := CanonicalString(m.key), SlotText(m.slot);
    AtThree(text, i, m.before + key + m.middle, ":", slot);
    AtThree(text, i, m.before, key, m.middle);
  }

  /** A member whose text is followed by a comma or a closing brace. */
  lemma {:induction false} MemberReads(
      m: Member, text: string, i: nat, c: char, acc: seq<(string, OrderedValue)>, isNumber: string -> bool)
    requires AllSpace(m.before) && AllSpace(m.middle) && WrittenSlot(m.slot, isNumber) && At(text, i, MemberText(m))
    requires CharAt(text, i + |MemberText(m)|, c) && (c == ',' || c == '}')
    ensures i <= |text|
    ensures var n, next := i + |MemberText(m)|, acc + [(m.key, ValueOf(m.slot.doc))];
            var r := ReadEntries(text, i, acc, isNumber);
            if !Followable(m.key, 0) then r == Err(Malformed)
            else if Names(acc, m.key) then r == Err(Repeated(m.key))
            else if FaultOf(m.slot.doc).Some? then r == Err(FaultOf(m.slot.doc).value)
            else if c == ',' then r == ReadEntries(text, n + 1, next, isNumber)
            else r == Ok((OObject(next), n + 1))
    decreases m, 3
  {
    hide ReadValue, ReadString, ReadEntries, SlotText, WrittenSlot, ValueOf, CanonicalString, SkipSpace, At, AllSpace, Names;
    hide Followable, FaultOf;
    MemberPlaces(m, text, i);
    MemberStart(m, text, i, isNumber);
    AtInside(text, i, m.before);
    var colon := i + |m.before| + |CanonicalString(m.key)| + |m.middle|;
    SlotReads(m.slot, text, colon + 1, c, isNumber);
    EntryStep(text, i, acc, isNumber);
  }

  lemma {:induction false} MembersRead(
      members: seq<Member>, text: string, i: nat, acc: seq<(string, OrderedValue)>, seen: set<string>,
      isNumber: string -> bool)
    requires members != [] && WrittenMembers(members, isNumber) && At(text, i, MembersText(members) + "}")
    requires Seen(acc, seen)
    ensures i <= |text|
    ensures ReadEntries(text, i, acc, isNumber)
         == Outcome(MembersFault(members, seen), (OObject(acc + MemberValues(members)), i + |MembersText(members)| + 1))
    decreases members, 0
  {
    hide ReadEntries, MembersText, MemberValues, ValueOf, FaultOf, MembersFault, MemberText, At, CharAt, WrittenMembers,
      WrittenSlot, Followable, Names, Seen, AllSpace;
    var m, rest := members[0], members[1..];
    FirstMember(members, isNumber);
    MembersSplit(members, text, i);
    AddsMember(acc, seen, members);
    var c := if |members| == 1 then '}' else ',';
    MemberReads(m, text, i, c, acc, isNumber);
    MembersFaultStep(members, seen);
    if |members| > 1 && Followable(m.key, 0) && m.key !in seen && FaultOf(m.slot.doc).None? {
      MembersRead(rest, text, i + |MemberText(m)| + 1, acc + [(m.key, ValueOf(m.slot.doc))], seen + {m.key}, isNumber);
    }
  }

  lemma FirstMember(members: seq<Member>, isNumber: string -> bool)
    requires members != [] && WrittenMembers(members, isNumber)
    ensures AllSpace(members[0].before) && AllSpace(members[0].middle)
    ensures WrittenSlot(members[0].slot, isNumber) && WrittenMembers(members[1..], isNumber)
  {
  }

  lemma MembersFaultStep(members: seq<Member>, seen: set<string>)
    requires members != []
    ensures var m, fault := members[0], MembersFault(members, seen);
            if !Followable(m.key, 0) then fault == Some(Malformed)
            else if m.key in seen then fault == Some(Repeated(m.key))
            else if FaultOf(m.slot.doc).Some? then fault == FaultOf(m.slot.doc)
            else fault == if |members| == 1 then None else MembersFault(members[1..], seen + {m.key})
  {
    hide FaultOf, Followable;
  }

  lemma AddsMember(acc: seq<(string, OrderedValue)>, seen: set<string>, members: seq<Member>)
    requires members != [] && Seen(acc, seen)
    ensures Names(acc, members[0].key) <==> members[0].key in seen
    ensures var next := acc + [(members[0].key, ValueOf(members[0].slot.doc))];
            && Seen(next, seen + {members[0].key})
            && acc + MemberValues(members) == if |members| == 1 then next else next + MemberValues(members[1..])
  {
    hide ValueOf, Names, MemberValues;
    var entry := (members[0].key, ValueOf(members[0].slot.doc));
    KeySeen(acc, seen, entry.0, entry.1);
    FirstValue(members);
    Reassociate(acc, entry, MemberValues(members[1..]));
  }

  lemma FirstValue(members: seq<Member>)
    requires members != []
    ensures MemberValues(members) == [(members[0].key, ValueOf(members[0].slot.doc))] + MemberValues(members[1..])
    ensures |members| == 1 ==> MemberValues(members[1..]) == []
  {
    hide ValueOf;
  }

  lemma Reassociate<T>(acc: seq<T>, x: T, rest: seq<T>)
    ensures acc + ([x] + rest) == (acc + [x]) + rest
    ensures rest == [] ==> acc + ([x] + rest) == acc + [x]
  {
  }

  lemma KeySeen(acc: seq<(string, OrderedValue)>, seen: set<string>, key: string, value: OrderedValue)
    requires Seen(acc, seen)
    ensures Seen(acc + [(key, value)], seen + {key})
  {
    var next := acc + [(key, value)];
    assert next[|acc|].0 == key;
    forall other
      ensures Names(next, other) <==> other in seen + {key}
    {
      if Names(acc, other) {
        var k :| 0 <= k < |acc| && acc[k].0 == other;
        assert next[k].0 == other;
      }
    }
  }

  lemma MembersSplit(members: seq<Member>, text: string, i: nat)
    requires members != [] && At(text, i, MembersText(members) + "}")
    ensures var t := MemberText(members[0]);
            && At(text, i, t)
            && if |members| == 1 then MembersText(members) == t && CharAt(text, i + |t|, '}')
               else && CharAt(text, i + |t|, ',') && At(text, i + |t| + 1, MembersText(members[1..]) + "}")
                    && |MembersText(members)| == |t| + 1 + |MembersText(members[1..])|
  {
    hide MemberText, At, CharAt;
    var t := MemberText(members[0]);
    if |members| == 1 {
      assert MembersText(members) == t + "" == t;
      AtSplit(text, i, t, "}");
      AtChar(text, i + |t|, '}');
    } else {
      var rest := MembersText(members[1..]) + "}";
      assert MembersText(members) + "}" == t + "," + rest;
      AtThree(text, i, t, ",", rest);
      AtChar(text, i + |t|, ',');
    }
  }

  /**
   * The round trip, exactly: every text of a value, whatever its layout, parses to the value with its
   * members in the order written and is consumed to its last character; unless a key is repeated or a
   * string is lost, and then it fails with the first such fault.
   */
  lemma ParseUndoesPrinting(s: Slot, isNumber: string -> bool)
    requires WrittenSlot(s, isNumber)
    ensures Parse(SlotText(s), isNumber) == Outcome(FaultOf(s.doc), ValueOf(s.doc))
    ensures Parse(SlotText(s), isNumber).Ok? <==> Readable(s.doc)
  {
    hide ReadValue, Readable, Written, DocText, ValueOf, FaultOf, At, AllSpace, SkipSpace;
    var text, t, j := SlotText(s), DocText(s.doc), |s.before|;
    WholeText(text);
    AtThree(text, 0, s.before, t, s.after);
    SlotStarts(s, text, 0, isNumber);
    NothingBehind(s, text, j + |t|);
    DocReads(s.doc, text, j, isNumber);
    ReadValueSkips(text, 0, isNumber);
    FaultlessIsReadable(s.doc);
  }

  /** Nothing is at fault exactly if every key of an object is there once and no string is lost. */
  lemma {:induction false} FaultlessIsReadable(d: Doc)
    ensures FaultOf(d).None? <==> Readable(d)
    decreases d, 1
  {
    match d
    case ArrayDoc(_, items) => FaultlessItems(items);
    case ObjectDoc(_, members) => FaultlessMembers(members, {});
    case _ =>
  }

  lemma {:induction false} FaultlessItems(items: seq<Slot>)
    ensures ItemsFault(items).None? <==> forall i :: 0 <= i < |items| ==> Readable(items[i].doc)
    decreases items, 0
  {
    hide FaultOf, Readable;
    if items != [] {
      FaultlessIsReadable(items[0].doc);
      FaultlessItems(items[1..]);
      assert items == [items[0]] + items[1..];
    }
  }

  lemma {:induction false} FaultlessMembers(members: seq<Member>, seen: set<string>)
    ensures MembersFault(members, seen).None?
       <==> && DistinctKeys(members) && (forall i :: 0 <= i < |members| ==> members[i].key !in seen)
            && forall i :: 0 <= i < |members| ==> Followable(members[i].key, 0) && Readable(members[i].slot.doc)
    decreases members, 0
  {
    hide FaultOf, Readable, Followable;
    if members != [] {
      FaultlessIsReadable(members[0].slot.doc);
      FaultlessMembers(members[1..], seen + {members[0].key});
      assert members == [members[0]] + members[1..];
    }
  }

  lemma WholeText(text: string)
    ensures At(text, 0, text)
  {
  }

  lemma NothingBehind(s: Slot, text: string, end: nat)
    requires At(text, end, s.after) && AllSpace(s.after) && end + |s.after| == |text|
    ensures SkipSpace(text, end) == |text| && Delimited(s.doc, text, end)
  {
    SkipsSpace(text, end, s.after);
    hide SkipSpace;
    if s.after != "" {
      AtIndex(text, end, s.after, 0);
      assert IsSpace(s.after[0]);
    }
  }

  /* ---------- what the parser never gives ---------- */

  /** No object of the value has a member twice. */
  ghost predicate DistinctMembers(v: OrderedValue)
    decreases v, 1
  {
    match v
    case OArray(items) => forall i :: 0 <= i < |items| ==> DistinctMembers(items[i])
    case OObject(entries) => DistinctNames(entries) && forall i :: 0 <= i < |entries| ==> DistinctMembers(entries[i].1)
    case _ => true
  }

  ghost predicate DistinctNames(entries: seq<(string, OrderedValue)>) {
    forall i, j :: 0 <= i < j < |entries| ==> entries[i].0 != entries[j].0
  }

  ghost predicate DistinctOutcome(r: Read<OrderedValue>) {
    r.Ok? ==> DistinctMembers(r.value.0)
  }

  lemma {:induction false} ReadsAreDistinct(text: string, i: nat, isNumber: string -> bool)
    requires i <= |text|
    ensures DistinctOutcome(ReadValue(text, i, isNumber))
    decreases |text| - i, 1
  {
    hide ReadString, ReadEntries, ReadItems, SkipNumber;
    var j := SkipSpace(text, i);
    if CharAt(text, j, '{') {
      EntriesAreDistinct(text, SkipSpace(text, j + 1), [], isNumber);
    } else if CharAt(text, j, '[') {
      ItemsAreDistinct(text, SkipSpace(text, j + 1), [], isNumber);
    }
  }

  lemma {:induction false} ItemsAreDistinct(text: string, i: nat, acc: seq<OrderedValue>, isNumber: string -> bool)
    requires i <= |text| && forall k :: 0 <= k < |acc| ==> DistinctMembers(acc[k])
    ensures DistinctOutcome(ReadItems(text, i, acc, isNumber))
    decreases |text| - i, 2
  {
    hide ReadValue;
    ReadsAreDistinct(text, i, isNumber);
    var value := ReadValue(text, i, isNumber);
    if value.Ok? {
      var n := SkipSpace(text, value.value.1);
      if CharAt(text, n, ',') {
        ItemsAreDistinct(text, n + 1, acc + [value.value.0], isNumber);
      }
    }
  }

  lemma {:induction false} EntriesAreDistinct(
      text: string, i: nat, acc: seq<(string, OrderedValue)>, isNumber: string -> bool)
    requires i <= |text| && DistinctNames(acc) && forall k :: 0 <= k < |acc| ==> DistinctMembers(acc[k].1)
    ensures DistinctOutcome(ReadEntries(text, i, acc, isNumber))
    decreases |text| - i, 2
  {
    hide ReadValue, ReadString, DistinctMembers;
    var j := SkipSpace(text, i);
    if CharAt(text, j, '"') && ReadString(text, j).Ok? {
      var key := ReadString(text, j).value;
      var k := SkipSpace(text, key.1);
      if !Names(acc, key.0) && CharAt(text, k, ':') {
        ReadsAreDistinct(text, k + 1, isNumber);
        var value := ReadValue(text, k + 1, isNumber);
        if value.Ok? {
          var entries, n := acc + [(key.0, value.value.0)], SkipSpace(text, value.value.1);
          MembersStayDistinct(acc, key.0, value.value.0);
          if CharAt(text, n, ',') {
            EntriesAreDistinct(text, n + 1, entries, isNumber);
          } else if CharAt(text, n, '}') {
            ObjectIsDistinct(entries);
          }
        }
      }
    }
  }

  lemma MembersStayDistinct(acc: seq<(string, OrderedValue)>, key: string, value: OrderedValue)
    requires DistinctNames(acc) && !Names(acc, key) && DistinctMembers(value)
    requires forall k :: 0 <= k < |acc| ==> DistinctMembers(acc[k].1)
    ensures var entries := acc + [(key, value)];
            DistinctNames(entries) && forall k :: 0 <= k < |entries| ==> DistinctMembers(entries[k].1)
  {
    hide DistinctMembers;
  }

  lemma ObjectIsDistinct(entries: seq<(string, OrderedValue)>)
    requires DistinctNames(entries) && forall k :: 0 <= k < |entries| ==> DistinctMembers(entries[k].1)
    ensures DistinctMembers(OObject(entries))
  {
  }

  /** Whatever is parsed, no object in it has a member twice: duplicates are refused, at every depth. */
  lemma ParsedMembersAreDistinct(text: string, isNumber: string -> bool)
    ensures Parse(text, isNumber).Ok? ==> DistinctMembers(Parse(text, isNumber).value)
  {
    hide ReadValue;
    ReadsAreDistinct(text, 0, isNumber);
  }

  /* ---------- strings that lead the scan astray ---------- */

  lemma QuoteIsRead(text: string, isNumber: string -> bool)
    requires CharAt(text, 0, '"')
    ensures var r := ReadString(text, 0);
            Parse(text, isNumber) ==
            if r.Err? then Err(r.error)
            else if SkipSpace(text, r.value.1) == |text| then Ok(OString(r.value.0)) else Err(Malformed)
  {
    hide ReadString;
    assert SkipSpace(text, 0) == 0;
  }

  /** Of all strings, exactly those that the scan can follow are read back from their spelling; no other spelling parses. */
  lemma StringsReadExactly(s: string, isNumber: string -> bool)
    ensures Parse(CanonicalString(s), isNumber) == if Followable(s, 0) then Ok(OString(s)) else Err(Malformed)
  {
    hide ReadString, CanonicalString, Followable, At;
    var text := CanonicalString(s);
    Quoted(s);
    WholeText(text);
    StringReads(s, text, 0);
    QuoteIsRead(text, isNumber);
  }

  /** No double quote, and no backslash directly before a `u`. */
  ghost predicate Plain(s: string) {
    (forall i :: 0 <= i < |s| ==> s[i] != '"')
    && forall i :: 0 <= i < |s| - 1 ==> !(s[i] == '\\' && s[i + 1] == 'u')
  }

  /** Such strings can be followed; and where a double quote comes after a plain start, the scan stops at it. */
  lemma {:induction false} PlainStrings(head: string, tail: string)
    requires Plain(head)
    ensures Followable(head, 0) && !Followable(head + "\"" + tail, 0)
    decreases |head|
  {
    var s := head + "\"" + tail;
    if head != "" {
      assert forall i :: 0 <= i < |head[1..]| ==> head[1..][i] == head[i + 1];
      assert s[1..] == head[1..] + "\"" + tail && s[0] == head[0];
      assert |head| > 1 ==> s[1] == head[1];
      assert |head| == 1 ==> s[1] == '"';
      PlainStrings(head[1..], tail);
    }
  }

  /** A jump that reaches the closing quote passes it, and one that ends before it does no harm. */
  lemma JumpsDecide()
    ensures !Followable("\\u", 0) && !Followable("\\uab", 0) && Followable("\\uabc", 0) && Followable("\\u\U{20AC}", 0)
  {
    assert "\\u"[1..] == "u" && "u"[1..] == "";
    assert "\\uab"[1..] == "uab" && "uab"[1..] == "ab" && "ab"[1..] == "b" && "b"[1..] == "";
    assert "\\uabc"[1..] == "uabc" && "uabc"[1..] == "abc" && "abc"[1..] == "bc" && "bc"[1..] == "c" && "c"[1..] == "";
    assert "\\u\U{20AC}"[1..] == "u\U{20AC}" && "u\U{20AC}"[1..] == "\U{20AC}" && "\U{20AC}"[1..] == "";
  }

  /** A jump can pass a double quote that would have ended the scan. */
  lemma JumpHidesQuote()
    ensures !Followable("\"ab", 0) && Followable("\\u\"ab", 0)
  {
    assert "\\u\"ab"[1..] == "u\"ab" && "u\"ab"[1..] == "\"ab" && "\"ab"[1..] == "ab" && "ab"[1..] == "b" && "b"[1..] == "";
  }

  /** A string whose first double quote comes after a plain start cannot be read back. */
  lemma QuotedStringsAreRefused(head: string, tail: string, isNumber: string -> bool)
    requires Plain(head)
    ensures Parse(CanonicalString(head + "\"" + tail), isNumber) == Err(Malformed)
  {
    hide Parse, Followable, CanonicalString;
    PlainStrings(head, tail);
    StringsReadExactly(head + "\"" + tail, isNumber);
  }

  /** The string `\u` has no double quote and is refused: the scan runs past its closing quote. */
  lemma EscapedBackslashBeforeU(isNumber: string -> bool)
    ensures Parse(CanonicalString("\\u"), isNumber) == Err(Malformed)
  {
    hide Parse, Followable, CanonicalString;
    JumpsDecide();
    StringsReadExactly("\\u", isNumber);
  }
}
