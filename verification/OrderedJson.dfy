/**
 * The parser for schema documents: JSON texts with the order of members kept, numbers reduced to the fact
 * that they are there, and duplicate members refused.
 */
module OrderedJson {
  import opened Prelude
  import opened CanonicalText
  import opened SchemaCatalog

  datatype Fault = Malformed | Repeated(key: string)

  /** A value or a string, and the offset behind it. */
  type Read<T> = Result<(T, nat), Fault>

  predicate IsSpace(c: char) {
    c == ' ' || c == '\n' || c == '\r' || c == '\t'
  }

  predicate IsNumberChar(c: char) {
    '0' <= c <= '9' || c == '-' || c == '+' || c == '.' || c == 'e' || c == 'E'
  }

  predicate StartsNumber(c: char) {
    '0' <= c <= '9' || c == '-'
  }

  predicate CharAt(text: string, i: nat, c: char) {
    i < |text| && text[i] == c
  }

  function SkipSpace(text: string, i: nat): (j: nat)
    requires i <= |text|
    ensures i <= j <= |text| && (j < |text| ==> !IsSpace(text[j]))
    decreases |text| - i
  {
    if i < |text| && IsSpace(text[i]) then SkipSpace(text, i + 1) else i
  }

  function SkipNumber(text: string, i: nat): (j: nat)
    requires i <= |text|
    ensures i <= j <= |text|
    decreases |text| - i
  {
    if i < |text| && IsNumberChar(text[i]) then SkipNumber(text, i + 1) else i
  }

  /** The bytes of a character in UTF-8. */
  function Width(c: char): (bytes: nat)
    ensures 1 <= bytes <= 4
  {
    if c < '\U{80}' then 1 else if c < '\U{800}' then 2 else if c < '\U{10000}' then 3 else 4
  }

  /** The first character that starts at least that many bytes further on, or the end of the text. */
  function Advance(text: string, i: nat, bytes: nat): (j: nat)
    ensures i <= j && (i <= |text| ==> j <= |text|)
    decreases bytes
  {
    if bytes == 0 || i >= |text| then i
    else Advance(text, i + 1, if bytes <= Width(text[i]) then 0 else bytes - Width(text[i]))
  }

  /**
   * The offset behind the closing quote.  A backslash moves on by one character only, so that the
   * character it escapes is looked at again; a `u` behind it is jumped over with the three bytes that
   * follow.  (A jump that ends inside a character goes on to the end of that character, whose remaining
   * bytes the scan passes one by one.)
   */
  function StringEnd(text: string, i: nat): (end: Option<nat>)
    ensures end.Some? ==> i < end.value <= |text|
    decreases |text| - i
  {
    if i >= |text| then None
    else if text[i] == '"' then Some(i + 1)
    else if text[i] == '\\' then StringEnd(text, if CharAt(text, i + 1, 'u') then Advance(text, i + 1, 4) else i + 1)
    else if text[i] < ' ' then None
    else StringEnd(text, i + 1)
  }

  function ReadString(text: string, i: nat): (r: Read<string>)
    requires i < |text|
    ensures r.Ok? ==> i < r.value.1 <= |text|
  {
    match StringEnd(text, i + 1)
    case None => Err(Malformed)
    case Some(end) =>
      match ParseString(text[i..end])
      case None => Err(Malformed)
      case Some(s) => Ok((s, end))
  }

  function ReadLiteral(text: string, i: nat, literal: string, value: OrderedValue): (r: Read<OrderedValue>)
    requires i <= |text| && literal != ""
    ensures r.Ok? ==> i < r.value.1 <= |text|
  {
    if i + |literal| <= |text| && text[i..i + |literal|] == literal then Ok((value, i + |literal|)) else Err(Malformed)
  }

  /** A number is whatever the given test accepts; its content is dropped. */
  function ReadNumber(text: string, i: nat, isNumber: string -> bool): (r: Read<OrderedValue>)
    requires i < |text| && StartsNumber(text[i])
    ensures r.Ok? ==> i < r.value.1 <= |text|
  {
    var end := SkipNumber(text, i + 1);
    if isNumber(text[i..end]) then Ok((ONumber, end)) else Err(Malformed)
  }

  function ReadValue(text: string, i: nat, isNumber: string -> bool): (r: Read<OrderedValue>)
    requires i <= |text|
    ensures r.Ok? ==> i < r.value.1 <= |text|
    decreases |text| - i, 1
  {
    var j := SkipSpace(text, i);
    if j == |text| then Err(Malformed)
    else if text[j] == '{' then ReadObject(text, j + 1, isNumber)
    else if text[j] == '[' then ReadArray(text, j + 1, isNumber)
    else if text[j] == '"' then
      match ReadString(text, j)
      case Err(fault) => Err(fault)
      case Ok(s) => Ok((OString(s.0), s.1))
    else if text[j] == 't' then ReadLiteral(text, j, "true", OBool(true))
    else if text[j] == 'f' then ReadLiteral(text, j, "false", OBool(false))
    else if text[j] == 'n' then ReadLiteral(text, j, "null", ONull)
    else if StartsNumber(text[j]) then ReadNumber(text, j, isNumber)
    else Err(Malformed)
  }

  function ReadObject(text: string, i: nat, isNumber: string -> bool): (r: Read<OrderedValue>)
    requires i <= |text|
    ensures r.Ok? ==> i < r.value.1 <= |text|
    decreases |text| - i, 3
  {
    var j := SkipSpace(text, i);
    if CharAt(text, j, '}') then Ok((OObject([]), j + 1)) else ReadEntries(text, j, [], isNumber)
  }

  predicate Names(entries: seq<(string, OrderedValue)>, key: string) {
    exists k :: 0 <= k < |entries| && entries[k].0 == key
  }

  /** The members from `i` on, added to `acc`. */
  function ReadEntries(text: string, i: nat, acc: seq<(string, OrderedValue)>, isNumber: string -> bool)
    : (r: Read<OrderedValue>)
    requires i <= |text|
    ensures r.Ok? ==> i < r.value.1 <= |text|
    decreases |text| - i, 2
  {
    var j := SkipSpace(text, i);
    if !CharAt(text, j, '"') then Err(Malformed) else
    match ReadString(text, j)
    case Err(fault) => Err(fault)
    case Ok(key) =>
      if Names(acc, key.0) then Err(Repeated(key.0)) else
      var k := SkipSpace(text, key.1);
      if !CharAt(text, k, ':') then Err(Malformed) else
      match ReadValue(text, k + 1, isNumber)
      case Err(fault) => Err(fault)
      case Ok(value) =>
        var entries, n := acc + [(key.0, value.0)], SkipSpace(text, value.1);
        if CharAt(text, n, ',') then ReadEntries(text, n + 1, entries, isNumber)
        else if CharAt(text, n, '}') then Ok((OObject(entries), n + 1))
        else Err(Malformed)
  }

  /** One step over the members of an object: a key, a colon, a value, and a comma or the closing brace. */
  lemma EntryStep(text: string, i: nat, acc: seq<(string, OrderedValue)>, isNumber: string -> bool)
    requires i <= |text|
    ensures var r := ReadEntries(text, i, acc, isNumber);
            if !CharAt(text, SkipSpace(text, i), '"') then r == Err(Malformed)
            else
              var key := ReadString(text, SkipSpace(text, i));
              if key.Err? then r == Err(key.error)
              else if Names(acc, key.value.0) then r == Err(Repeated(key.value.0))
              else
                var colon := SkipSpace(text, key.value.1);
                if !CharAt(text, colon, ':') then r == Err(Malformed)
                else
                  var value := ReadValue(text, colon + 1, isNumber);
                  if value.Err? then r == Err(value.error)
                  else
                    var next, n := acc + [(key.value.0, value.value.0)], SkipSpace(text, value.value.1);
                    r == if CharAt(text, n, ',') then ReadEntries(text, n + 1, next, isNumber)
                         else if CharAt(text, n, '}') then Ok((OObject(next), n + 1))
                         else Err(Malformed)
  {
    hide ReadValue, ReadString, SkipSpace, Names;
  }

  function ReadArray(text: string, i: nat, isNumber: string -> bool): (r: Read<OrderedValue>)
    requires i <= |text|
    ensures r.Ok? ==> i < r.value.1 <= |text|
    decreases |text| - i, 3
  {
    var j := SkipSpace(text, i);
    if CharAt(text, j, ']') then Ok((OArray([]), j + 1)) else ReadItems(text, j, [], isNumber)
  }

  /** The items from `i` on, added to `acc`. */
  function ReadItems(text: string, i: nat, acc: seq<OrderedValue>, isNumber: string -> bool): (r: Read<OrderedValue>)
    requires i <= |text|
    ensures r.Ok? ==> i < r.value.1 <= |text|
    decreases |text| - i, 2
  {
    match ReadValue(text, i, isNumber)
    case Err(fault) => Err(fault)
    case Ok(value) =>
      var items, n := acc + [value.0], SkipSpace(text, value.1);
      if CharAt(text, n, ',') then ReadItems(text, n + 1, items, isNumber)
      else if CharAt(text, n, ']') then Ok((OArray(items), n + 1))
      else Err(Malformed)
  }

  /** A whole document: one value and nothing behind it but white space. */
  function Parse(text: string, isNumber: string -> bool): Result<OrderedValue, Fault> {
    match ReadValue(text, 0, isNumber)
    case Err(fault) => Err(fault)
    case Ok(value) => if SkipSpace(text, value.1) == |text| then Ok(value.0) else Err(Malformed)
  }

  /* ---------- the parser ---------- */

  /** The outcome of reading at one offset, as the parser leaves it. */
  ghost predicate Lands<T>(r: Result<T, Fault>, offset: nat, spec: Read<T>) {
    match spec
    case Err(fault) => r == Err(fault)
    case Ok(value) => r == Ok(value.0) && offset == value.1
  }

  class Parser {
    const input: string
    const isNumber: string -> bool
    var offset: nat

    constructor (input: string, isNumber: string -> bool)
      ensures this.input == input && this.isNumber == isNumber && offset == 0
    {
      this.input := input;
      this.isNumber := isNumber;
      offset := 0;
    }

    method Whitespace()
      requires offset <= |input|
      modifies this
      ensures offset == SkipSpace(input, old(offset))
    {
      while offset < |input| && IsSpace(input[offset])
        invariant offset <= |input| && SkipSpace(input, offset) == SkipSpace(input, old(offset))
        decreases |input| - offset
      {
        offset := offset + 1;
      }
    }

    method StringValue() returns (r: Result<string, Fault>)
      requires offset < |input|
      modifies this
      ensures Lands(r, offset, ReadString(input, old(offset)))
    {
      hide ParseString;
      var start := offset;
      offset := offset + 1;
      while offset < |input|
        invariant start < offset && StringEnd(input, offset) == StringEnd(input, start + 1)
        decreases |input| - offset
      {
        var c := input[offset];
        if c == '"' {
          offset := offset + 1;
          var s := ParseString(input[start..offset]);
          return if s.None? then Err(Malformed) else Ok(s.value);
        } else if c == '\\' {
          offset := offset + 1;
          if offset < |input| && input[offset] == 'u' {
            offset := Advance(input, offset, 4);
          }
        } else if c < ' ' {
          return Err(Malformed);
        } else {
          offset := offset + 1;
        }
      }
      return Err(Malformed);
    }

    method Literal(literal: string, value: OrderedValue) returns (r: Result<OrderedValue, Fault>)
      requires offset <= |input| && literal != ""
      modifies this
      ensures Lands(r, offset, ReadLiteral(input, old(offset), literal, value))
    {
      if offset + |literal| <= |input| && input[offset..offset + |literal|] == literal {
        offset := offset + |literal|;
        return Ok(value);
      }
      return Err(Malformed);
    }

    method NumberValue() returns (r: Result<OrderedValue, Fault>)
      requires offset < |input| && StartsNumber(input[offset])
      modifies this
      ensures Lands(r, offset, ReadNumber(input, old(offset), isNumber))
    {
      var start := offset;
      while offset < |input| && IsNumberChar(input[offset])
        invariant start <= offset <= |input| && SkipNumber(input, offset) == SkipNumber(input, start)
        decreases |input| - offset
      {
        offset := offset + 1;
      }
      if !isNumber(input[start..offset]) {
        return Err(Malformed);
      }
      return Ok(ONumber);
    }

    method Value() returns (r: Result<OrderedValue, Fault>)
      requires offset <= |input|
      modifies this
      ensures Lands(r, offset, ReadValue(input, old(offset), isNumber))
      decreases |input| - offset, 1
    {
      hide ReadObject, ReadArray, ReadString, ReadNumber, SkipSpace;
      Whitespace();
      if offset == |input| {
        return Err(Malformed);
      }
      var c := input[offset];
      if c == '{' {
        r := ObjectValue();
      } else if c == '[' {
        r := ArrayValue();
      } else if c == '"' {
        var s := StringValue();
        r := if s.Err? then Err(s.error) else Ok(OString(s.value));
      } else if c == 't' {
        r := Literal("true", OBool(true));
      } else if c == 'f' {
        r := Literal("false", OBool(false));
      } else if c == 'n' {
        r := Literal("null", ONull);
      } else if StartsNumber(c) {
        r := NumberValue();
      } else {
        r := Err(Malformed);
      }
    }

    method ObjectValue() returns (r: Result<OrderedValue, Fault>)
      requires offset < |input|
      modifies this
      ensures Lands(r, offset, ReadObject(input, old(offset) + 1, isNumber))
      decreases |input| - offset, 0
    {
      hide ReadValue, ReadString, ReadEntries, SkipSpace, Names;
      offset := offset + 1;
      Whitespace();
      var entries: seq<(string, OrderedValue)> := [];
      if offset < |input| && input[offset] == '}' {
        offset := offset + 1;
        return Ok(OObject(entries));
      }
      while true
        invariant old(offset) < offset <= |input|
        invariant ReadObject(input, old(offset) + 1, isNumber) == ReadEntries(input, offset, entries, isNumber)
        decreases |input| - offset
      {
        EntryStep(input, offset, entries, isNumber);
        Whitespace();
        if !(offset < |input| && input[offset] == '"') {
          return Err(Malformed);
        }
        var key := StringValue();
        if key.Err? {
          return Err(key.error);
        }
        if Names(entries, key.value) {
          return Err(Repeated(key.value));
        }
        Whitespace();
        if !(offset < |input| && input[offset] == ':') {
          return Err(Malformed);
        }
        offset := offset + 1;
        var value := Value();
        if value.Err? {
          return Err(value.error);
        }
        entries := entries + [(key.value, value.value)];
        Whitespace();
        if offset < |input| && input[offset] == ',' {
          offset := offset + 1;
        } else if offset < |input| && input[offset] == '}' {
          offset := offset + 1;
          return Ok(OObject(entries));
        } else {
          return Err(Malformed);
        }
      }
    }

    method ArrayValue() returns (r: Result<OrderedValue, Fault>)
      requires offset < |input|
      modifies this
      ensures Lands(r, offset, ReadArray(input, old(offset) + 1, isNumber))
      decreases |input| - offset, 0
    {
      hide ReadValue, SkipSpace;
      offset := offset + 1;
      Whitespace();
      var items: seq<OrderedValue> := [];
      if offset < |input| && input[offset] == ']' {
        offset := offset + 1;
        return Ok(OArray(items));
      }
      while true
        invariant old(offset) < offset <= |input|
        invariant ReadArray(input, old(offset) + 1, isNumber) == ReadItems(input, offset, items, isNumber)
        decreases |input| - offset
      {
        var value := Value();
        if value.Err? {
          return Err(value.error);
        }
        items := items + [value.value];
        Whitespace();
        if offset < |input| && input[offset] == ',' {
          offset := offset + 1;
        } else if offset < |input| && input[offset] == ']' {
          offset := offset + 1;
          return Ok(OArray(items));
        } else {
          return Err(Malformed);
        }
      }
    }
  }

  method ParseDocument(text: string, isNumber: string -> bool) returns (r: Result<OrderedValue, Fault>)
    ensures r == Parse(text, isNumber)
  {
    hide ReadValue;
    var parser := new Parser(text, isNumber);
    r := parser.Value();
    if r.Err? {
      return r;
    }
    parser.Whitespace();
    if parser.offset != |text| {
      return Err(Malformed);
    }
  }
}
