/** The strict line-based decoder of the canonical profile. */
module CanonicalYaml {
  import opened Prelude
  import opened CanonicalText
  import opened Strings

  datatype DecodeError =
    | ByteOrderMark | TerminalNewline | CarriageReturn | EmptySource | PaddedLine | TrailingContent
    | BadIndentation | UnexpectedIndentation | EndedEarly
    | BadKey | BadScalar | BadSequenceMarker | DuplicateKey | EmptyMapping | EmptySequence

  type Decoded<T> = Result<T, DecodeError>

  /* ---------- lines ---------- */

  function LeadingSpaces(line: string): (n: nat)
    ensures n <= |line| && (forall i :: 0 <= i < n ==> line[i] == ' ')
    ensures n < |line| ==> line[n] != ' '
  {
    if line != "" && line[0] == ' ' then 1 + LeadingSpaces(line[1..]) else 0
  }

  function Indentation(line: string): (indent: Decoded<nat>)
    ensures indent.Ok? ==> indent.value == LeadingSpaces(line)
  {
    var indent := LeadingSpaces(line);
    if indent % 2 != 0 || '\t' in line then Err(BadIndentation) else Ok(indent)
  }

  /* ---------- keys ---------- */

  function Advance(distance: Option<nat>, step: nat): Option<nat> {
    match distance
    case Some(n) => Some(n + step)
    case None => None
  }

  /** The distance to the quote that ends a string literal whose opening quote has been consumed. */
  function ClosingQuote(s: string): (n: Option<nat>)
    ensures n.Some? ==> n.value < |s| && s[n.value] == '"'
    decreases |s|
  {
    if s == "" then None
    else if s[0] == '\\' then if |s| < 2 then None else Advance(ClosingQuote(s[2..]), 2)
    else if s[0] == '"' then Some(0)
    else if s[0] < ' ' then None
    else Advance(ClosingQuote(s[1..]), 1)
  }

  /** The scan shared by the key reader and the line classifier: a loop over a byte offset. */
  method ScanQuote(line: string) returns (end: Option<nat>)
    requires line != ""
    ensures end == Advance(ClosingQuote(line[1..]), 1)
  {
    var offset := 1;
    ghost var goal := Advance(ClosingQuote(line[1..]), 1);
    while offset < |line|
      invariant 1 <= offset <= |line|
      invariant goal == Advance(ClosingQuote(line[offset..]), offset)
    {
      if line[offset] == '\\' {
        if offset + 2 > |line| {
          return None;
        }
        assert line[offset..][2..] == line[offset + 2..];
        offset := offset + 2;
      } else if line[offset] == '"' {
        return Some(offset);
      } else if line[offset] < ' ' {
        return None;
      } else {
        assert line[offset..][1..] == line[offset + 1..];
        offset := offset + 1;
      }
    }
    return None;
  }

  /** What a mapping line holds: its key and the text after the separator. */
  function KeyAt(line: string): Decoded<(string, string)> {
    if !StartsWith(line, "\"") then Err(BadKey) else
    match ClosingQuote(line[1..])
    case None => Err(BadKey)
    case Some(n) => SplitKey(line, n + 1)
  }

  function SplitKey(line: string, quote: nat): Decoded<(string, string)>
    requires quote < |line|
  {
    var raw := line[..quote + 1];
    match ParseString(raw)
    case None => Err(BadKey)
    case Some(key) =>
      var rest := line[quote + 1..];
      if CanonicalString(key) != raw || !StartsWith(rest, ":") then Err(BadKey)
      else if rest == ":" then Ok((key, ""))
      else if StartsWith(rest, ": ") && !StartsWith(rest, ":  ") then Ok((key, rest[2..]))
      else Err(BadKey)
  }

  predicate IsMappingLine(line: string) {
    StartsWith(line, "\"") &&
    match ClosingQuote(line[1..])
    case None => false
    case Some(n) => n + 2 < |line| && line[n + 2] == ':'
  }

  method ReadKey(line: string) returns (r: Decoded<(string, string)>)
    ensures r == KeyAt(line)
  {
    if !StartsWith(line, "\"") {
      return Err(BadKey);
    }
    var end := ScanQuote(line);
    match end
    case None => return Err(BadKey);
    case Some(quote) => return SplitKey(line, quote);
  }

  method ClassifyMapping(line: string) returns (r: bool)
    ensures r == IsMappingLine(line)
  {
    if !StartsWith(line, "\"") {
      return false;
    }
    var end := ScanQuote(line);
    match end
    case None => return false;
    case Some(quote) => return quote + 1 < |line| && line[quote + 1] == ':';
  }

  /* ---------- scalars ---------- */

  function ScalarAt(raw: string): Decoded<Json> {
    if raw == "{}" then Ok(Obj(map[]))
    else if raw == "[]" then Ok(Arr([]))
    else
      match ParseScalar(raw)
      case None => Err(BadScalar)
      case Some(value) =>
        if value.IsInline() && InlineText(value) == Some(raw) then Ok(value) else Err(BadScalar)
  }

  predicate LooksLikeScalar(content: string) {
    StartsWith(content, "\"") || StartsWith(content, "-") || (content != "" && IsDigit(content[0]))
    || content == "{}" || content == "[]" || content == "true" || content == "false" || content == "null"
  }

  predicate IsItemLine(content: string) {
    content == "-" || StartsWith(content, "- ")
  }

  /* ---------- blocks: what is read at a position, and where reading stops ---------- */

  function NodeAt(lines: seq<string>, pos: nat, indent: nat): (r: Decoded<(Json, nat)>)
    requires pos <= |lines|
    ensures r.Ok? ==> pos < r.value.1 <= |lines|
    decreases |lines| - pos, 2
  {
    if pos == |lines| then Err(EndedEarly) else
    var actual :- Indentation(lines[pos]);
    if actual != indent then Err(UnexpectedIndentation) else
    var content := lines[pos][indent..];
    if IsItemLine(content) then SequenceAt(lines, pos, indent, [])
    else if !IsMappingLine(content) && LooksLikeScalar(content) then
      var value :- ScalarAt(content);
      Ok((value, pos + 1))
    else MappingAt(lines, pos, indent, map[])
  }

  /** A member value or an item: on the rest of its line, or a block two columns deeper. */
  function ChildAt(lines: seq<string>, pos: nat, indent: nat, rest: string): (r: Decoded<(Json, nat)>)
    requires pos <= |lines|
    ensures r.Ok? ==> pos <= r.value.1 <= |lines|
    decreases |lines| - pos, 3
  {
    if rest != "" then
      var value :- ScalarAt(rest);
      Ok((value, pos))
    else if pos == |lines| then Err(EndedEarly)
    else
      var deeper :- Indentation(lines[pos]);
      if deeper != indent + 2 then Err(BadIndentation) else NodeAt(lines, pos, deeper)
  }

  function MappingAt(lines: seq<string>, pos: nat, indent: nat, acc: map<string, Json>): (r: Decoded<(Json, nat)>)
    requires pos <= |lines|
    ensures r.Ok? ==> pos <= r.value.1 <= |lines| && (|acc| == 0 ==> pos < r.value.1)
    decreases |lines| - pos, 1
  {
    if pos == |lines| then FinishMapping(acc, pos) else
    var actual :- Indentation(lines[pos]);
    if actual != indent || StartsWith(lines[pos][indent..], "-") then FinishMapping(acc, pos) else
    var member :- KeyAt(lines[pos][indent..]);
    var child :- ChildAt(lines, pos + 1, indent, member.1);
    if member.0 in acc then Err(DuplicateKey)
    else MappingAt(lines, child.1, indent, acc[member.0 := child.0])
  }

  /** One member of a mapping, as an equation. */
  lemma MappingStep(lines: seq<string>, pos: nat, indent: nat, acc: map<string, Json>, member: (string, string))
    requires pos < |lines| && Indentation(lines[pos]) == Ok(indent) && !StartsWith(lines[pos][indent..], "-")
    requires KeyAt(lines[pos][indent..]) == Ok(member)
    ensures var child := ChildAt(lines, pos + 1, indent, member.1);
            MappingAt(lines, pos, indent, acc) ==
            if child.Err? then Err(child.error)
            else if member.0 in acc then Err(DuplicateKey)
            else MappingAt(lines, child.value.1, indent, acc[member.0 := child.value.0])
  {
  }

  function FinishMapping(acc: map<string, Json>, pos: nat): Decoded<(Json, nat)> {
    if |acc| == 0 then Err(EmptyMapping) else Ok((Obj(acc), pos))
  }

  function SequenceAt(lines: seq<string>, pos: nat, indent: nat, acc: seq<Json>): (r: Decoded<(Json, nat)>)
    requires pos <= |lines|
    ensures r.Ok? ==> pos <= r.value.1 <= |lines| && (acc == [] ==> pos < r.value.1)
    decreases |lines| - pos, 1
  {
    if pos == |lines| then FinishSequence(acc, pos) else
    var actual :- Indentation(lines[pos]);
    if actual != indent || !StartsWith(lines[pos][indent..], "-") then FinishSequence(acc, pos) else
    var content := lines[pos][indent..];
    if !IsItemLine(content) then Err(BadSequenceMarker) else
    var child :- ChildAt(lines, pos + 1, indent, if content == "-" then "" else content[2..]);
    SequenceAt(lines, child.1, indent, acc + [child.0])
  }

  function FinishSequence(acc: seq<Json>, pos: nat): Decoded<(Json, nat)> {
    if acc == [] then Err(EmptySequence) else Ok((Arr(acc), pos))
  }

  /** The outcome as the program reports it: the value without the position. */
  function ValueOf(r: Decoded<(Json, nat)>): Decoded<Json> {
    match r
    case Ok(pair) => Ok(pair.0)
    case Err(e) => Err(e)
  }

  /** The recursive-descent parser: a cursor over the lines of one source. */
  class Parser {
    const lines: seq<string>
    var position: nat

    constructor (lines: seq<string>)
      ensures this.lines == lines && position == 0
    {
      this.lines := lines;
      position := 0;
    }

    method Node(indent: nat) returns (r: Decoded<Json>)
      requires position <= |lines|
      modifies this
      ensures position <= |lines|
      ensures r == ValueOf(NodeAt(lines, old(position), indent))
      ensures r.Ok? ==> position == NodeAt(lines, old(position), indent).value.1
      decreases |lines| - position, 2
    {
      hide ClosingQuote, ScalarAt, LeadingSpaces;
      if position == |lines| {
        return Err(EndedEarly);
      }
      var line := lines[position];
      var actual :- Indentation(line);
      if actual != indent {
        return Err(UnexpectedIndentation);
      }
      var content := line[indent..];
      if IsItemLine(content) {
        r := ReadSequence(indent);
        return;
      }
      var isMapping := ClassifyMapping(content);
      if !isMapping && LooksLikeScalar(content) {
        position := position + 1;
        r := ScalarAt(content);
      } else {
        r := ReadMapping(indent);
      }
    }

    method Child(indent: nat, rest: string) returns (r: Decoded<Json>)
      requires position <= |lines|
      modifies this
      ensures position <= |lines|
      ensures r == ValueOf(ChildAt(lines, old(position), indent, rest))
      ensures r.Ok? ==> position == ChildAt(lines, old(position), indent, rest).value.1
      decreases |lines| - position, 3
    {
      if rest != "" {
        return ScalarAt(rest);
      }
      if position == |lines| {
        return Err(EndedEarly);
      }
      var deeper :- Indentation(lines[position]);
      if deeper != indent + 2 {
        return Err(BadIndentation);
      }
      r := Node(deeper);
    }

    method ReadMapping(indent: nat) returns (r: Decoded<Json>)
      requires position <= |lines|
      modifies this
      ensures position <= |lines|
      ensures r == ValueOf(MappingAt(lines, old(position), indent, map[]))
      ensures r.Ok? ==> position == MappingAt(lines, old(position), indent, map[]).value.1
      decreases |lines| - position, 1
    {
      hide KeyAt, ChildAt, Indentation, LeadingSpaces;
      var values: map<string, Json> := map[];
      ghost var goal := MappingAt(lines, position, indent, map[]);
      while position < |lines|
        invariant old(position) <= position <= |lines|
        invariant goal == MappingAt(lines, position, indent, values)
        decreases |lines| - position
      {
        var line := lines[position];
        var actual :- Indentation(line);
        if actual != indent || StartsWith(line[indent..], "-") {
          break;
        }
        var member :- ReadKey(line[indent..]);
        ghost var child := ChildAt(lines, position + 1, indent, member.1);
        MappingStep(lines, position, indent, values, member);
        position := position + 1;
        var value :- Child(indent, member.1);
        if member.0 in values {
          return Err(DuplicateKey);
        }
        values := values[member.0 := value];
      }
      r := if |values| == 0 then Err(EmptyMapping) else Ok(Obj(values));
    }

    method ReadSequence(indent: nat) returns (r: Decoded<Json>)
      requires position <= |lines|
      modifies this
      ensures position <= |lines|
      ensures r == ValueOf(SequenceAt(lines, old(position), indent, []))
      ensures r.Ok? ==> position == SequenceAt(lines, old(position), indent, []).value.1
      decreases |lines| - position, 1
    {
      hide ChildAt, Indentation, LeadingSpaces;
      var values: seq<Json> := [];
      ghost var goal := SequenceAt(lines, position, indent, []);
      while position < |lines|
        invariant old(position) <= position <= |lines|
        invariant goal == SequenceAt(lines, position, indent, values)
        decreases |lines| - position
      {
        var line := lines[position];
        var actual :- Indentation(line);
        if actual != indent || !StartsWith(line[indent..], "-") {
          break;
        }
        var content := line[indent..];
        if !IsItemLine(content) {
          return Err(BadSequenceMarker);
        }
        position := position + 1;
        var value :- Child(indent, if content == "-" then "" else content[2..]);
        values := values + [value];
      }
      r := if values == [] then Err(EmptySequence) else Ok(Arr(values));
    }
  }

  /* ---------- whole sources ---------- */

  predicate IsPadded(line: string) {
    line == "" || IsWhiteSpace(line[|line| - 1])
  }

  /** The lines of an admissible source; every check here precedes parsing. */
  function SourceLines(text: string): Decoded<seq<string>> {
    if StartsWith(text, "\U{FEFF}") then Err(ByteOrderMark)
    else if !EndsWith(text, "\n") || EndsWith(text, "\n\n") then Err(TerminalNewline)
    else if '\r' in text then Err(CarriageReturn)
    else
      var body := text[..|text| - 1];
      if body == "" then Err(EmptySource) else
      var lines := Split(body, '\n');
      if exists i :: 0 <= i < |lines| && IsPadded(lines[i]) then Err(PaddedLine) else Ok(lines)
  }

  function Decode(text: string): Decoded<Json> {
    var lines :- SourceLines(text);
    var root :- NodeAt(lines, 0, 0);
    if root.1 != |lines| then Err(TrailingContent) else Ok(root.0)
  }

  method DecodeCanonicalCandidate(text: string) returns (r: Decoded<Json>)
    ensures r == Decode(text)
  {
    var lines :- SourceLines(text);
    var parser := new Parser(lines);
    var value :- parser.Node(0);
    if parser.position != |lines| {
      return Err(TrailingContent);
    }
    return Ok(value);
  }
}
