/**
 * String literals as a grammar (section 7 of RFC 8259): which texts spell which strings, and that the canonical
 * spelling is the shortest one (section 3.2.2.2 of RFC 8785).
 */
module StringGrammar {
  import opened Prelude
  import opened CanonicalText

  /* ---------- spellings of one character ---------- */

  ghost predicate Digit(c: char, v: int) {
    ('0' <= c <= '9' && v == c as int - '0' as int) || ('a' <= c <= 'f' && v == c as int - 'a' as int + 10)
    || ('A' <= c <= 'F' && v == c as int - 'A' as int + 10)
  }

  /** Four hexadecimal digits, in either case. */
  ghost predicate Unit(s: string, n: int) {
    |s| == 4
    && exists a, b, c, d :: Digit(s[0], a) && Digit(s[1], b) && Digit(s[2], c) && Digit(s[3], d)
                            && n == ((a * 16 + b) * 16 + c) * 16 + d
  }

  /** The escapes of two characters. */
  ghost predicate Short(letter: char, c: char) {
    (letter == c && c in {'"', '\\', '/'})
    || (letter == 'b' && c == '\U{08}') || (letter == 'f' && c == '\U{0C}') || (letter == 'n' && c == '\U{0A}')
    || (letter == 'r' && c == '\U{0D}') || (letter == 't' && c == '\U{09}')
  }

  ghost predicate ByItself(c: char, token: string) {
    token == [c] && c >= ' ' && c != '"' && c != '\\'
  }

  ghost predicate ByLetter(c: char, token: string) {
    |token| == 2 && token[0] == '\\' && Short(token[1], c)
  }

  ghost predicate ByUnit(c: char, token: string) {
    |token| == 6 && token[0] == '\\' && token[1] == 'u' && Unit(token[2..6], c as int)
  }

  /** Beyond sixteen bits: two units, a high and a low surrogate. */
  ghost predicate ByPair(c: char, token: string) {
    |token| == 12 && token[0] == '\\' && token[1] == 'u' && token[6] == '\\' && token[7] == 'u'
    && exists high, low :: Unit(token[2..6], high) && Unit(token[8..12], low) && 0xD800 <= high < 0xDC00 && 0xDC00 <= low < 0xE000
                           && c as int == 0x1_0000 + (high - 0xD800) * 0x400 + (low - 0xDC00)
  }

  ghost predicate Spells(c: char, token: string) {
    ByItself(c, token) || ByLetter(c, token) || ByUnit(c, token) || ByPair(c, token)
  }

  /** The text is made of one spelling after the other. */
  ghost predicate SpellsAll(s: string, text: string)
    decreases |s|
  {
    if s == "" then text == ""
    else exists n :: 0 < n <= |text| && Spells(s[0], text[..n]) && SpellsAll(s[1..], text[n..])
  }

  /** A literal: spellings between quotes. */
  ghost predicate Literal(raw: string, s: string) {
    |raw| >= 2 && raw[0] == '"' && raw[|raw| - 1] == '"' && SpellsAll(s, raw[1..|raw| - 1])
  }

  lemma DigitMeans(c: char)
    ensures forall v :: Digit(c, v) <==> HexValue(c).Some? && HexValue(c).value == v
  {
  }

  lemma UnitMeans(s: string)
    requires |s| == 4
    ensures forall n :: Unit(s, n) <==> CodeUnit(s).Some? && CodeUnit(s).value == n
  {
    DigitMeans(s[0]);
    DigitMeans(s[1]);
    DigitMeans(s[2]);
    DigitMeans(s[3]);
    hide Digit, HexValue;
    if CodeUnit(s).Some? {
      var a, b, c, d := HexValue(s[0]).value, HexValue(s[1]).value, HexValue(s[2]).value, HexValue(s[3]).value;
      assert Digit(s[0], a) && Digit(s[1], b) && Digit(s[2], c) && Digit(s[3], d);
      assert CodeUnit(s).value == ((a * 16 + b) * 16 + c) * 16 + d;
    }
  }

  lemma ShortMeans(letter: char)
    ensures forall c :: Short(letter, c) <==> SimpleEscape(letter) == Some(c)
  {
  }

  /* ---------- reading a literal ---------- */

  /** The first spelling of a text, and what is read behind it. */
  lemma FirstSpelling(text: string, c: char, n: nat)
    requires 0 < n <= |text| && Spells(c, text[..n])
    ensures Unescape(text) == Prepend(c, Unescape(text[n..]))
  {
    var token := text[..n];
    hide Unescape, Unit, Short, Digit;
    if ByItself(c, token) {
      assert text[0] == token[0];
      ReadsItself(text);
    } else if ByLetter(c, token) {
      assert text[0] == token[0] && text[1] == token[1];
      ShortMeans(text[1]);
      ReadsLetter(text);
    } else if ByUnit(c, token) {
      assert text[0] == token[0] && text[1] == token[1] && text[2..6] == token[2..6];
      UnitMeans(text[2..6]);
      ReadsUnit(text);
    } else {
      assert text[0] == token[0] && text[1] == token[1] && text[2..6] == token[2..6];
      assert text[6] == token[6] && text[7] == token[7] && text[8..12] == token[8..12];
      UnitMeans(text[2..6]);
      UnitMeans(text[8..12]);
      ReadsPair(text);
    }
  }

  lemma ReadsItself(text: string)
    requires text != "" && text[0] >= ' ' && text[0] != '"' && text[0] != '\\'
    ensures Unescape(text) == Prepend(text[0], Unescape(text[1..]))
  {
  }

  lemma ReadsLetter(text: string)
    requires |text| >= 2 && text[0] == '\\' && SimpleEscape(text[1]).Some?
    ensures Unescape(text) == Prepend(SimpleEscape(text[1]).value, Unescape(text[2..]))
  {
  }

  lemma ReadsUnit(text: string)
    requires |text| >= 6 && text[0] == '\\' && text[1] == 'u' && CodeUnit(text[2..6]).Some?
    ensures var unit := CodeUnit(text[2..6]).value;
            unit < 0xD800 || 0xE000 <= unit ==> Unescape(text) == Prepend(unit as char, Unescape(text[6..]))
  {
    hide CodeUnit;
    assert Unescape(text) == UnescapeUnit(text);
  }

  lemma ReadsPair(text: string)
    requires |text| >= 12 && text[0] == '\\' && text[1] == 'u' && text[6] == '\\' && text[7] == 'u'
    requires CodeUnit(text[2..6]).Some? && CodeUnit(text[8..12]).Some?
    ensures var high, low := CodeUnit(text[2..6]).value, CodeUnit(text[8..12]).value;
            0xD800 <= high < 0xDC00 && 0xDC00 <= low < 0xE000 ==>
              Unescape(text) == Prepend((0x1_0000 + (high - 0xD800) * 0x400 + (low - 0xDC00)) as char, Unescape(text[12..]))
  {
    hide CodeUnit;
    assert Unescape(text) == UnescapeUnit(text);
  }

  /** Where something is read, the text starts with a spelling of its first character. */
  lemma SpellingRead(text: string, s: string) returns (n: nat)
    requires Unescape(text) == Some(s) && text != "\""
    ensures s != "" && 0 < n <= |text| && Spells(s[0], text[..n]) && Unescape(text[n..]) == Some(s[1..])
  {
    hide Unit, Short, Digit, CodeUnit;
    if text[0] != '\\' {
      n := 1;
      assert text[..1] == [text[0]];
    } else if text[1] != 'u' {
      n := 2;
      ShortMeans(text[1]);
      assert text[..2] == [text[0], text[1]];
      assert ByLetter(s[0], text[..2]);
    } else {
      n := UnitRead(text, s);
    }
  }

  lemma UnitRead(text: string, s: string) returns (n: nat)
    requires |text| >= 2 && text[0] == '\\' && text[1] == 'u' && Unescape(text) == Some(s)
    ensures s != "" && 0 < n <= |text| && Spells(s[0], text[..n]) && Unescape(text[n..]) == Some(s[1..])
  {
    hide Unit, CodeUnit, Short;
    assert Unescape(text) == UnescapeUnit(text);
    UnitMeans(text[2..6]);
    var unit := CodeUnit(text[2..6]).value;
    if unit < 0xD800 || 0xE000 <= unit {
      n := 6;
      assert text[..6][2..6] == text[2..6] && s[0] as int == unit;
      assert ByUnit(s[0], text[..6]);
    } else {
      n := 12;
      UnitMeans(text[8..12]);
      var low := CodeUnit(text[8..12]).value;
      assert text[..12][2..6] == text[2..6] && text[..12][8..12] == text[8..12];
      assert s[0] as int == 0x1_0000 + (unit - 0xD800) * 0x400 + (low - 0xDC00);
      assert Unit(text[..12][2..6], unit) && Unit(text[..12][8..12], low);
      assert ByPair(s[0], text[..12]);
    }
  }

  lemma {:induction false} UnescapeSpells(text: string, s: string)
    requires Unescape(text) == Some(s)
    ensures text != "" && text[|text| - 1] == '"' && SpellsAll(s, text[..|text| - 1])
    decreases |text|
  {
    hide Spells;
    if text == "\"" {
      assert text[..0] == "";
    } else {
      var n := SpellingRead(text, s);
      UnescapeSpells(text[n..], s[1..]);
      hide Unescape;
      var body := text[..|text| - 1];
      assert body[..n] == text[..n] && body[n..] == text[n..][..|text[n..]| - 1];
    }
  }

  lemma {:induction false} SpellsUnescape(text: string, s: string)
    requires text != "" && text[|text| - 1] == '"' && SpellsAll(s, text[..|text| - 1])
    ensures Unescape(text) == Some(s)
    decreases |s|
  {
    hide Spells;
    var body := text[..|text| - 1];
    if s == "" {
      assert text == body + "\"" == "\"";
    } else {
      var n :| 0 < n <= |body| && Spells(s[0], body[..n]) && SpellsAll(s[1..], body[n..]);
      assert text[..n] == body[..n] && text[n..][..|text[n..]| - 1] == body[n..];
      SpellsUnescape(text[n..], s[1..]);
      FirstSpelling(text, s[0], n);
      hide Unescape;
      assert [s[0]] + s[1..] == s;
    }
  }

  /** Reading strings, exactly: a text is read as a string if and only if it is a literal that spells it. */
  lemma StringsExactly(raw: string, s: string)
    ensures ParseString(raw) == Some(s) <==> Literal(raw, s)
  {
    hide Unescape, SpellsAll;
    if ParseString(raw) == Some(s) {
      UnescapeSpells(raw[1..], s);
      assert raw[1..][..|raw[1..]| - 1] == raw[1..|raw| - 1];
    }
    if Literal(raw, s) {
      assert raw[1..][..|raw[1..]| - 1] == raw[1..|raw| - 1];
      SpellsUnescape(raw[1..], s);
    }
  }

  /* ---------- the canonical spelling ---------- */

  ghost predicate NoCapitals(token: string) {
    forall i :: 2 <= i < |token| ==> !('A' <= token[i] <= 'F')
  }

  lemma CanonicalSpells(c: char)
    ensures Spells(c, EscapeChar(c)) && NoCapitals(EscapeChar(c))
  {
    if |EscapeChar(c)| == 6 {
      var hi, lo := c as int / 16, c as int % 16;
      var e := EscapeChar(c);
      assert e[2..6] == ['0', '0', HexDigit(hi), HexDigit(lo)];
      assert HexValue(HexDigit(hi)) == Some(hi) && HexValue(HexDigit(lo)) == Some(lo);
      assert CodeUnit(e[2..6]) == Some(c as int);
      UnitMeans(e[2..6]);
    }
  }

  /** No spelling of a character is shorter, and no other of its length does without capital digits. */
  lemma CanonicalIsShortest(c: char, token: string)
    requires Spells(c, token)
    ensures |EscapeChar(c)| <= |token|
    ensures |EscapeChar(c)| == |token| && NoCapitals(token) ==> token == EscapeChar(c)
  {
    if ByItself(c, token) {
    } else if ByLetter(c, token) {
      ShortestLetter(c, token);
    } else {
      ShortEnough(c);
      if ByUnit(c, token) && |EscapeChar(c)| == 6 && NoCapitals(token) {
        ShortestUnit(c, token);
      }
    }
  }

  lemma ShortEnough(c: char)
    ensures |EscapeChar(c)| <= 6
  {
  }

  lemma ShortestUnit(c: char, token: string)
    requires ByUnit(c, token) && |EscapeChar(c)| == 6 && NoCapitals(token)
    ensures token == EscapeChar(c)
  {
    var a, b, x, y := UnitDigits(token[2..6], c as int);
    ControlDigits(c, a, b, x, y);
    assert token[2..6] == [token[2], token[3], token[4], token[5]];
    hide Digit, HexDigit, ByUnit;
    LowerDigit(token[2], a);
    LowerDigit(token[3], b);
    LowerDigit(token[4], x);
    LowerDigit(token[5], y);
    assert token == ['\\', 'u', token[2], token[3], token[4], token[5]];
    ZeroDigit();
  }

  lemma UnitDigits(s: string, n: int) returns (a: nat, b: nat, c: nat, d: nat)
    requires Unit(s, n)
    ensures Digit(s[0], a) && Digit(s[1], b) && Digit(s[2], c) && Digit(s[3], d) && n == ((a * 16 + b) * 16 + c) * 16 + d
    ensures a < 16 && b < 16 && c < 16 && d < 16
  {
    UnitMeans(s);
    DigitMeans(s[0]);
    DigitMeans(s[1]);
    DigitMeans(s[2]);
    DigitMeans(s[3]);
    hide Unit, Digit, HexValue;
    a, b, c, d := HexValue(s[0]).value, HexValue(s[1]).value, HexValue(s[2]).value, HexValue(s[3]).value;
  }

  lemma ControlDigits(c: char, a: nat, b: nat, x: nat, y: nat)
    requires |EscapeChar(c)| == 6 && a < 16 && b < 16 && x < 16 && y < 16 && c as int == ((a * 16 + b) * 16 + x) * 16 + y
    ensures a == 0 && b == 0 && x == c as int / 16 && y == c as int % 16
    ensures EscapeChar(c) == ['\\', 'u', '0', '0', HexDigit(x), HexDigit(y)]
  {
    hide HexDigit;
  }

  lemma ZeroDigit()
    ensures HexDigit(0) == '0'
  {
  }

  lemma LowerDigit(d: char, v: nat)
    requires Digit(d, v) && !('A' <= d <= 'F')
    ensures v < 16 && d == HexDigit(v)
  {
  }

  lemma ShortestLetter(c: char, token: string)
    requires ByLetter(c, token)
    ensures |EscapeChar(c)| <= 2 && (|EscapeChar(c)| == 2 ==> token == EscapeChar(c))
  {
    assert token == [token[0], token[1]];
  }
}
