/**
 * Canonical spelling of JSON scalars (sections 3.2.2.2 and 3.2.2.3 of RFC 8785) and the part of the
 * JSON grammar that reads them back (sections 6 and 7 of RFC 8259).
 */
module CanonicalText {
  import opened Prelude

  /* ---------- strings ---------- */

  function HexDigit(n: nat): char
    requires n < 16
  {
    "0123456789abcdef"[n]
  }

  function HexValue(c: char): (value: Option<nat>)
    ensures value.Some? ==> value.value < 16
  {
    if '0' <= c <= '9' then Some(c as int - '0' as int)
    else if 'a' <= c <= 'f' then Some(c as int - 'a' as int + 10)
    else if 'A' <= c <= 'F' then Some(c as int - 'A' as int + 10)
    else None
  }

  function EscapeChar(c: char): string {
    if c == '"' then "\\\""
    else if c == '\\' then "\\\\"
    else if c == '\U{08}' then "\\b"
    else if c == '\U{0C}' then "\\f"
    else if c == '\n' then "\\n"
    else if c == '\r' then "\\r"
    else if c == '\t' then "\\t"
    else if c < ' ' then
      ['\\', 'u', '0', '0', HexDigit(c as int / 16), HexDigit(c as int % 16)]
    else [c]
  }

  function Escape(s: string): string {
    if s == "" then "" else EscapeChar(s[0]) + Escape(s[1..])
  }

  function CanonicalString(s: string): string {
    "\"" + Escape(s) + "\""
  }

  /** The code unit spelled by four hexadecimal digits. */
  function CodeUnit(s: string): (unit: Option<nat>)
    requires |s| == 4
    ensures unit.Some? ==> unit.value < 0x1_0000
  {
    match (HexValue(s[0]), HexValue(s[1]), HexValue(s[2]), HexValue(s[3]))
    case (Some(a), Some(b), Some(c), Some(d)) =>
      Some(a * 0x1000 + b * 0x100 + c * 0x10 + d)
    case _ => None
  }

  function SimpleEscape(c: char): Option<char> {
    if c == '"' || c == '\\' || c == '/' then Some(c)
    else if c == 'b' then Some('\U{08}')
    else if c == 'f' then Some('\U{0C}')
    else if c == 'n' then Some('\n')
    else if c == 'r' then Some('\r')
    else if c == 't' then Some('\t')
    else None
  }

  function Prepend(c: char, rest: Option<string>): Option<string> {
    match rest
    case Some(s) => Some([c] + s)
    case None => None
  }

  /** Reads the body of a string literal; `s` starts after the opening quote and ends with the closing one. */
  function Unescape(s: string): Option<string>
    decreases |s|
  {
    if s == "" then None
    else if s[0] == '"' then if |s| == 1 then Some("") else None
    else if s[0] < ' ' then None
    else if s[0] != '\\' then Prepend(s[0], Unescape(s[1..]))
    else if |s| < 2 then None
    else if s[1] != 'u' then
      match SimpleEscape(s[1])
      case Some(c) => Prepend(c, Unescape(s[2..]))
      case None => None
    else UnescapeUnit(s)
  }

  /** A `\u` escape: one scalar value, or a surrogate pair spelled by two escapes. */
  function UnescapeUnit(s: string): Option<string>
    requires |s| >= 2
    decreases |s|, 0
  {
    if |s| < 6 then None else
    match CodeUnit(s[2..6])
    case None => None
    case Some(unit) =>
      if unit < 0xD800 || 0xE000 <= unit then Prepend(unit as char, Unescape(s[6..]))
      else if unit < 0xDC00 && |s| >= 12 && s[6] == '\\' && s[7] == 'u' then
        match CodeUnit(s[8..12])
        case None => None
        case Some(low) =>
          if 0xDC00 <= low < 0xE000 then
            Prepend((0x1_0000 + (unit - 0xD800) * 0x400 + (low - 0xDC00)) as char, Unescape(s[12..]))
          else None
      else None
  }

  function ParseString(raw: string): Option<string> {
    if StartsWith(raw, "\"") then Unescape(raw[1..]) else None
  }

  lemma EscapedControl(c: char, tail: string)
    requires c < ' '
    ensures Unescape(EscapeChar(c) + tail) == Prepend(c, Unescape(tail))
  {
    var e := EscapeChar(c);
    var s := e + tail;
    if |e| == 2 {
      assert s[2..] == tail;
    } else {
      assert s[6..] == tail;
      var hi, lo := c as int / 16, c as int % 16;
      assert s[2..6] == ['0', '0', HexDigit(hi), HexDigit(lo)];
      assert HexValue(HexDigit(hi)) == Some(hi) && HexValue(HexDigit(lo)) == Some(lo);
      assert CodeUnit(s[2..6]) == Some(c as int);
      assert Unescape(s) == UnescapeUnit(s);
    }
  }

  lemma UnescapeEscapeChar(c: char, tail: string)
    ensures Unescape(EscapeChar(c) + tail) == Prepend(c, Unescape(tail))
  {
    var e := EscapeChar(c);
    if c < ' ' {
      EscapedControl(c, tail);
    } else {
      assert (e + tail)[|e|..] == tail;
    }
  }

  lemma {:induction false} UnescapeEscape(s: string)
    ensures Unescape(Escape(s) + "\"") == Some(s)
  {
    if s == "" {
    } else {
      assert Escape(s) + "\"" == EscapeChar(s[0]) + (Escape(s[1..]) + "\"");
      UnescapeEscapeChar(s[0], Escape(s[1..]) + "\"");
      UnescapeEscape(s[1..]);
      assert [s[0]] + s[1..] == s;
    }
  }

  /** Reading a canonically spelled string gives the string back, whatever characters it holds. */
  lemma StringRoundTrip(s: string)
    ensures ParseString(CanonicalString(s)) == Some(s)
  {
    UnescapeEscape(s);
    assert CanonicalString(s)[1..] == Escape(s) + "\"";
  }

  predicate NoControls(s: string) {
    forall i :: 0 <= i < |s| ==> s[i] >= ' '
  }

  lemma {:induction false} EscapeHasNoControls(s: string)
    ensures NoControls(Escape(s))
  {
    if s == "" {
    } else {
      EscapeHasNoControls(s[1..]);
      assert NoControls(EscapeChar(s[0]));
    }
  }

  /* ---------- numbers ---------- */

  const MAX_SAFE_INTEGER: int := 0x1F_FFFF_FFFF_FFFF

  function Decimal(n: nat): (s: string)
    ensures |s| > 0
  {
    if n < 10 then ["0123456789"[n]] else Decimal(n / 10) + ["0123456789"[n % 10]]
  }

  function CanonicalNumber(n: int): Option<string> {
    if -MAX_SAFE_INTEGER <= n <= MAX_SAFE_INTEGER then
      Some(if n < 0 then "-" + Decimal(-n) else Decimal(n))
    else None
  }

  predicate IsDigit(c: char) {
    '0' <= c <= '9'
  }

  predicate AllDigits(s: string) {
    forall i :: 0 <= i < |s| ==> IsDigit(s[i])
  }

  function DigitsValue(s: string): nat
    requires AllDigits(s)
  {
    if s == "" then 0 else DigitsValue(s[..|s| - 1]) * 10 + (s[|s| - 1] as int - '0' as int)
  }

  /** A JSON integer: no sign other than '-', no leading zero. */
  function ParseInteger(raw: string): Option<int> {
    var digits := if StartsWith(raw, "-") then raw[1..] else raw;
    if digits == "" || !AllDigits(digits) || (|digits| > 1 && digits[0] == '0') then None
    else
      var magnitude: int := DigitsValue(digits);
      Some(if StartsWith(raw, "-") then -magnitude else magnitude)
  }

  lemma {:induction false} DecimalDigits(n: nat)
    ensures AllDigits(Decimal(n)) && DigitsValue(Decimal(n)) == n
    ensures Decimal(n)[0] == '0' ==> n == 0
  {
    var s := Decimal(n);
    if n < 10 {
      assert s[..0] == "";
    } else {
      DecimalDigits(n / 10);
      assert s[..|s| - 1] == Decimal(n / 10);
    }
  }

  lemma DecimalZero(n: nat)
    requires Decimal(n)[0] == '0'
    ensures Decimal(n) == "0"
  {
    DecimalDigits(n);
  }

  lemma NumberRoundTrip(n: int)
    requires CanonicalNumber(n).Some?
    ensures ParseInteger(CanonicalNumber(n).value) == Some(n)
  {
    var m := if n < 0 then -n else n;
    DecimalDigits(m);
    if Decimal(m)[0] == '0' {
      DecimalZero(m);
    }
    if n < 0 {
      assert CanonicalNumber(n).value[1..] == Decimal(m);
    }
  }

  /* ---------- inline values ---------- */

  /** The one-line spelling of a scalar or an empty container. */
  function InlineText(value: Json): Option<string>
    requires value.IsInline()
  {
    match value
    case Null => Some("null")
    case Bool(flag) => Some(if flag then "true" else "false")
    case Number(n) => CanonicalNumber(n)
    case Str(s) => Some(CanonicalString(s))
    case Arr(_) => Some("[]")
    case Obj(_) => Some("{}")
  }

  /** The scalar that a JSON text denotes; arrays, objects and malformed texts give `None`. */
  function ParseScalar(raw: string): Option<Json> {
    if raw == "null" then Some(Null)
    else if raw == "true" then Some(Bool(true))
    else if raw == "false" then Some(Bool(false))
    else if StartsWith(raw, "\"") then
      match ParseString(raw)
      case Some(s) => Some(Str(s))
      case None => None
    else
      match ParseInteger(raw)
      case Some(n) => Some(Number(n))
      case None => None
  }

  predicate IsWhiteSpace(c: char) {
    var n := c as int;
    0x09 <= n <= 0x0D || n == 0x20 || n == 0x85 || n == 0xA0 || n == 0x1680
    || 0x2000 <= n <= 0x200A || n == 0x2028 || n == 0x2029 || n == 0x202F || n == 0x205F || n == 0x3000
  }

  /** The shape of every inline spelling: visible, single line, not padded. */
  lemma InlineTextShape(value: Json)
    requires value.IsInline() && InlineText(value).Some?
    ensures var t := InlineText(value).value;
            t != "" && NoControls(t) && t[0] != ' ' && !IsWhiteSpace(t[|t| - 1])
  {
    match value
    case Str(s) => EscapeHasNoControls(s);
    case Number(n) => DecimalDigits(if n < 0 then -n else n);
    case _ =>
  }
}
