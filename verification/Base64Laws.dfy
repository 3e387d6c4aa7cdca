/** What the encoder writes and what each decoder reads, said of the 24-bit words of section 4 of RFC 4648. */
module Base64Laws {
  import opened Prelude
  import opened Base64

  /* ---------- the alphabet and the words ---------- */

  /** The alphabet: capital letters, small letters, digits, plus and slash. */
  ghost predicate IsDigit(c: Byte, digit: Byte) {
    (0x41 <= c <= 0x5a && digit == c - 0x41) || (0x61 <= c <= 0x7a && digit == c - 0x61 + 26)
    || (0x30 <= c <= 0x39 && digit == c - 0x30 + 52) || (c == 0x2b && digit == 62) || (c == 0x2f && digit == 63)
  }

  /** Three bytes as one word, the first byte on top. */
  ghost function Word(a: Byte, b: Byte, c: Byte): bv32 {
    ((a as bv32) << 16) | ((b as bv32) << 8) | c as bv32
  }

  /** Four digits of six bits as one word, the first digit on top. */
  ghost function DigitWord(p: Byte, q: Byte, r: Byte, s: Byte): bv32 {
    ((p as bv32) << 18) | ((q as bv32) << 12) | ((r as bv32) << 6) | s as bv32
  }

  ghost predicate SameBits(a: Byte, b: Byte, c: Byte, p: Byte, q: Byte, r: Byte, s: Byte) {
    p < 64 && q < 64 && r < 64 && s < 64 && Word(a, b, c) == DigitWord(p, q, r, s)
  }

  function OrZero(bytes: seq<Byte>, i: nat): Byte {
    if i < |bytes| then bytes[i] else 0
  }

  /** A character for a digit, or padding where there is no byte for it. */
  ghost predicate Shows(c: Byte, digit: Byte, present: bool) {
    if present then IsDigit(c, digit) else c == 0x3d
  }

  /** The four characters of up to three bytes. */
  ghost predicate SpellsGroup(bytes: seq<Byte>, text: seq<Byte>) {
    |text| == 4
    && exists p, q, r, s :: SameBits(OrZero(bytes, 0), OrZero(bytes, 1), OrZero(bytes, 2), p, q, r, s)
         && IsDigit(text[0], p) && IsDigit(text[1], q) && Shows(text[2], r, |bytes| > 1) && Shows(text[3], s, |bytes| > 2)
  }

  ghost predicate Encoded(bytes: seq<Byte>, text: seq<Byte>) {
    |text| == 4 * ((|bytes| + 2) / 3)
    && forall g :: 0 <= g < (|bytes| + 2) / 3 ==> SpellsGroup(Chunk(bytes, g), text[4 * g..4 * g + 4])
  }

  lemma WordSplits(a: Byte, b: Byte, c: Byte)
    ensures SameBits(a, b, c, Digit0(a), Digit1(a, b), Digit2(b, c), Digit3(c))
  {
  }

  lemma OuterDigits(a: Byte, b: Byte, c: Byte, p: Byte, q: Byte, r: Byte, s: Byte)
    requires SameBits(a, b, c, p, q, r, s)
    ensures p == Digit0(a) && s == Digit3(c)
  {
  }

  lemma InnerDigits(a: Byte, b: Byte, c: Byte, p: Byte, q: Byte, r: Byte, s: Byte)
    requires SameBits(a, b, c, p, q, r, s)
    ensures q == Digit1(a, b) && r == Digit2(b, c)
  {
  }

  lemma WordsAgree(a: Byte, b: Byte, c: Byte, p: Byte, q: Byte, r: Byte, s: Byte)
    ensures SameBits(a, b, c, p, q, r, s) <==> p == Digit0(a) && q == Digit1(a, b) && r == Digit2(b, c) && s == Digit3(c)
  {
    WordSplits(a, b, c);
    if SameBits(a, b, c, p, q, r, s) {
      OuterDigits(a, b, c, p, q, r, s);
      InnerDigits(a, b, c, p, q, r, s);
    }
    hide SameBits, Digit0, Digit1, Digit2, Digit3;
  }

  lemma BytesAgree(p: Byte, q: Byte, r: Byte, s: Byte)
    requires p < 64 && q < 64 && r < 64 && s < 64
    ensures SameBits(Byte0(p, q), Byte1(q, r), Byte2(r, s), p, q, r, s)
  {
  }

  lemma DigitMeans(c: Byte, digit: Byte)
    ensures IsDigit(c, digit) <==> digit < 64 && c == Symbol(digit)
    ensures IsDigit(c, digit) <==> IsSymbol(c) && digit == Value(c)
  {
  }

  /* ---------- the encoder ---------- */

  lemma GroupExactly(chunk: seq<Byte>, text: seq<Byte>)
    requires 1 <= |chunk| <= 3
    ensures text == Group(chunk) <==> SpellsGroup(chunk, text)
  {
    var a, b, c := OrZero(chunk, 0), OrZero(chunk, 1), OrZero(chunk, 2);
    var d0, d1, d2, d3 := Digit0(a), Digit1(a, b), Digit2(b, c), Digit3(c);
    WordsAgree(a, b, c, d0, d1, d2, d3);
    assert SameBits(a, b, c, d0, d1, d2, d3) && d0 < 64 && d1 < 64 && d2 < 64 && d3 < 64;
    forall p, q, r, s ensures SameBits(a, b, c, p, q, r, s) <==> p == d0 && q == d1 && r == d2 && s == d3 {
      WordsAgree(a, b, c, p, q, r, s);
    }
    hide SameBits, Digit0, Digit1, Digit2, Digit3, Symbol, IsDigit;
    if |text| == 4 {
      DigitHere(text[0], d0);
      DigitHere(text[1], d1);
      DigitHere(text[2], d2);
      DigitHere(text[3], d3);
    }
  }

  lemma DigitHere(c: Byte, digit: Byte)
    requires digit < 64
    ensures IsDigit(c, digit) <==> c == Symbol(digit)
  {
    DigitMeans(c, digit);
  }

  /** The encoder, exactly: groups of four characters that spell the words of three bytes, padded at the end. */
  lemma {:induction false} EncodeExactly(bytes: seq<Byte>, text: seq<Byte>)
    ensures text == Encode(bytes) <==> Encoded(bytes, text)
    decreases |bytes|
  {
    hide Group, SpellsGroup;
    if bytes == [] {
    } else if |bytes| <= 3 {
      GroupExactly(bytes, text);
      OneGroupEncoded(bytes, text);
      hide Encoded;
    } else if |text| >= 4 {
      EncodeExactly(bytes[3..], text[4..]);
      GroupExactly(bytes[..3], text[..4]);
      assert text == text[..4] + text[4..];
      LongerEncoded(bytes, text);
      hide Encoded;
    }
  }

  lemma OneGroupEncoded(bytes: seq<Byte>, text: seq<Byte>)
    requires 1 <= |bytes| <= 3
    ensures Encoded(bytes, text) <==> SpellsGroup(bytes, text)
  {
    hide SpellsGroup;
    SpellsFour(bytes, text);
    assert (|bytes| + 2) / 3 == 1;
    assert Chunk(bytes, 0) == bytes;
    if |text| == 4 {
      assert text[4 * 0..4 * 0 + 4] == text;
      if SpellsGroup(bytes, text) {
        assert SpellsGroup(Chunk(bytes, 0), text[4 * 0..4 * 0 + 4]);
      }
    }
  }

  lemma SpellsFour(bytes: seq<Byte>, text: seq<Byte>)
    ensures SpellsGroup(bytes, text) ==> |text| == 4
  {
    hide SameBits, IsDigit, Shows;
  }

  /** The bytes of one group. */
  function Chunk(bytes: seq<Byte>, g: nat): seq<Byte>
    requires 3 * g <= |bytes|
  {
    bytes[3 * g..if 3 * g + 3 <= |bytes| then 3 * g + 3 else |bytes|]
  }

  lemma LongerEncoded(bytes: seq<Byte>, text: seq<Byte>)
    requires |bytes| > 3 && |text| >= 4
    ensures Encoded(bytes, text) <==> SpellsGroup(bytes[..3], text[..4]) && Encoded(bytes[3..], text[4..])
  {
    hide SpellsGroup;
    var n := (|bytes| + 2) / 3;
    assert (|bytes[3..]| + 2) / 3 == n - 1;
    assert Chunk(bytes, 0) == bytes[..3] && text[4 * 0..4 * 0 + 4] == text[..4];
    if |text| == 4 * n {
      forall g: nat | g < n - 1
        ensures text[4..][4 * g..4 * g + 4] == text[4 * (g + 1)..4 * (g + 1) + 4] && Chunk(bytes[3..], g) == Chunk(bytes, g + 1)
      {
      }
      if SpellsGroup(bytes[..3], text[..4]) && Encoded(bytes[3..], text[4..]) {
        forall g: nat | g < n ensures SpellsGroup(Chunk(bytes, g), text[4 * g..4 * g + 4]) {
          if g > 0 {
            assert Chunk(bytes[3..], g - 1) == Chunk(bytes, g) && text[4..][4 * (g - 1)..4 * (g - 1) + 4] == text[4 * g..4 * g + 4];
          }
        }
      }
      if Encoded(bytes, text) {
        assert SpellsGroup(Chunk(bytes, 0), text[4 * 0..4 * 0 + 4]);
        forall g: nat | g < n - 1 ensures SpellsGroup(Chunk(bytes[3..], g), text[4..][4 * g..4 * g + 4]) {
          assert SpellsGroup(Chunk(bytes, g + 1), text[4 * (g + 1)..4 * (g + 1) + 4]);
        }
      }
    }
  }

  /* ---------- the decoder by groups ---------- */

  /** A character of the alphabet, or padding that counts as zero. */
  ghost predicate DigitOrPad(c: Byte, digit: Byte) {
    IsDigit(c, digit) || (c == 0x3d && digit == 0)
  }

  /** Four characters give the bytes of their word; a byte whose character is padding is dropped. */
  ghost predicate GroupReads(text: seq<Byte>, piece: seq<Byte>) {
    |text| == 4
    && exists a, b, c, p, q, r, s :: SameBits(a, b, c, p, q, r, s)
         && IsDigit(text[0], p) && IsDigit(text[1], q) && DigitOrPad(text[2], r) && DigitOrPad(text[3], s)
         && piece == [a] + (if text[2] == 0x3d then [] else [b]) + (if text[3] == 0x3d then [] else [c])
  }

  function Flat(pieces: seq<seq<Byte>>): seq<Byte> {
    if pieces == [] then [] else pieces[0] + Flat(pieces[1..])
  }

  ghost predicate ReadByGroups(text: seq<Byte>, pieces: seq<seq<Byte>>) {
    |text| == 4 * |pieces| && forall g :: 0 <= g < |pieces| ==> GroupReads(text[4 * g..4 * g + 4], pieces[g])
  }

  lemma OneReads(text: seq<Byte>, piece: seq<Byte>)
    requires |text| == 4
    ensures GroupReads(text, piece) <==> IsGroup(text) && DecodeGroup(text) == piece
  {
    if IsGroup(text) {
      var p, q, r, s := Value(text[0]), Value(text[1]), DigitOrZero(text[2]), DigitOrZero(text[3]);
      DigitMeans(text[0], p);
      DigitMeans(text[1], q);
      DigitMeans(text[2], r);
      DigitMeans(text[3], s);
      BytesAgree(p, q, r, s);
      hide SameBits, IsDigit, IsSymbol, Value, Byte0, Byte1, Byte2;
      if DecodeGroup(text) == piece {
        var a, b, c := Byte0(p, q), Byte1(q, r), Byte2(r, s);
        assert SameBits(a, b, c, p, q, r, s) && DigitOrPad(text[2], r) && DigitOrPad(text[3], s);
        assert Keep(a, b, c, text[2] != PAD, text[3] != PAD) == [a] + (if text[2] == 0x3d then [] else [b]) + (if text[3] == 0x3d then [] else [c]);
      }
    }
    if GroupReads(text, piece) {
      ReadsIsDecoded(text, piece);
    }
  }

  lemma ReadsIsDecoded(text: seq<Byte>, piece: seq<Byte>)
    requires GroupReads(text, piece)
    ensures IsGroup(text) && DecodeGroup(text) == piece
  {
    hide SameBits, IsDigit, IsSymbol, Value, Byte0, Byte1, Byte2;
    var a, b, c, p, q, r, s :| SameBits(a, b, c, p, q, r, s)
         && IsDigit(text[0], p) && IsDigit(text[1], q) && DigitOrPad(text[2], r) && DigitOrPad(text[3], s)
         && piece == [a] + (if text[2] == 0x3d then [] else [b]) + (if text[3] == 0x3d then [] else [c]);
    DigitMeans(text[0], p);
    DigitMeans(text[1], q);
    DigitMeans(text[2], r);
    DigitMeans(text[3], s);
    PadIsNoDigit(r);
    PadIsNoDigit(s);
    WordsAgree(a, b, c, p, q, r, s);
    BytesOfWord(a, b, c, p, q, r, s);
    assert p == Value(text[0]) && q == Value(text[1]) && r == DigitOrZero(text[2]) && s == DigitOrZero(text[3]);
  }

  lemma PadIsNoDigit(digit: Byte)
    ensures !IsDigit(0x3d, digit)
  {
  }

  lemma BytesOfWord(a: Byte, b: Byte, c: Byte, p: Byte, q: Byte, r: Byte, s: Byte)
    requires SameBits(a, b, c, p, q, r, s)
    ensures a == Byte0(p, q) && b == Byte1(q, r) && c == Byte2(r, s)
  {
  }

  /** The decoder by groups, exactly: every group of four is read on its own, whatever stands before or behind it. */
  lemma {:induction false} ByGroupsExactly(text: seq<Byte>, bytes: seq<Byte>)
    ensures DecodeGroups(text) == Some(bytes) <==> exists pieces :: ReadByGroups(text, pieces) && bytes == Flat(pieces)
    decreases |text|
  {
    hide GroupReads, IsGroup, DecodeGroup;
    if text == [] {
      assert ReadByGroups(text, []);
    } else if |text| >= 4 {
      var group, rest := text[..4], text[4..];
      SameGroup(group, text);
      if IsGroup(text) && DecodeGroups(rest).Some? {
        var tail := DecodeGroups(rest).value;
        ByGroupsExactly(rest, tail);
        var pieces :| ReadByGroups(rest, pieces) && tail == Flat(pieces);
        OneReads(group, DecodeGroup(text));
        LongerRead(text, [DecodeGroup(text)] + pieces);
        assert ([DecodeGroup(text)] + pieces)[1..] == pieces;
      }
      if pieces :| ReadByGroups(text, pieces) && bytes == Flat(pieces) {
        LongerRead(text, pieces);
        OneReads(group, pieces[0]);
        ByGroupsExactly(rest, Flat(pieces[1..]));
      }
    }
  }

  lemma LongerRead(text: seq<Byte>, pieces: seq<seq<Byte>>)
    requires |text| >= 4 && pieces != []
    ensures ReadByGroups(text, pieces) <==> GroupReads(text[..4], pieces[0]) && ReadByGroups(text[4..], pieces[1..])
  {
    hide GroupReads;
    assert text[4 * 0..4 * 0 + 4] == text[..4];
    if |text| == 4 * |pieces| {
      forall g: nat | g < |pieces| - 1 ensures text[4..][4 * g..4 * g + 4] == text[4 * (g + 1)..4 * (g + 1) + 4] {
      }
      if GroupReads(text[..4], pieces[0]) && ReadByGroups(text[4..], pieces[1..]) {
        forall g: nat | g < |pieces| ensures GroupReads(text[4 * g..4 * g + 4], pieces[g]) {
          if g > 0 {
            assert GroupReads(text[4..][4 * (g - 1)..4 * (g - 1) + 4], pieces[1..][g - 1]);
          }
        }
      }
      if ReadByGroups(text, pieces) {
        assert GroupReads(text[4 * 0..4 * 0 + 4], pieces[0]);
        forall g: nat | g < |pieces| - 1 ensures GroupReads(text[4..][4 * g..4 * g + 4], pieces[1..][g]) {
          assert GroupReads(text[4 * (g + 1)..4 * (g + 1) + 4], pieces[g + 1]);
        }
      }
    }
  }

  /* ---------- the decoder with an accumulator ---------- */

  /** A digit of a run, or zero behind its end. */
  ghost predicate DigitAt(digits: seq<Byte>, i: nat, digit: Byte) {
    if i < |digits| then IsDigit(digits[i], digit) else digit == 0
  }

  ghost predicate WordAt(digits: seq<Byte>, i: nat, a: Byte, b: Byte, c: Byte) {
    exists p, q, r, s :: SameBits(a, b, c, p, q, r, s)
      && DigitAt(digits, i, p) && DigitAt(digits, i + 1, q) && DigitAt(digits, i + 2, r) && DigitAt(digits, i + 3, s)
  }

  /** The bits of a run of digits as bytes, filled up with zeros to whole words. */
  ghost predicate Filled(digits: seq<Byte>, stream: seq<Byte>) {
    |stream| == 3 * ((|digits| + 3) / 4)
    && forall g :: 0 <= g < (|digits| + 3) / 4 ==> WordAt(digits, 4 * g, stream[3 * g], stream[3 * g + 1], stream[3 * g + 2])
  }

  /** Digits, then only padding, a multiple of four in all; the whole bytes are read and nothing but zeros is left over. */
  ghost predicate Streamed(text: seq<Byte>, bytes: seq<Byte>) {
    |text| % 4 == 0
    && exists n: nat, stream :: n <= |text| && (forall i :: n <= i < |text| ==> text[i] == 0x3d) && Filled(text[..n], stream)
         && 6 * n / 8 <= |stream| && bytes == stream[..6 * n / 8] && forall k :: 6 * n / 8 <= k < |stream| ==> stream[k] == 0
  }

  function ValueAt(digits: seq<Byte>, i: nat): Byte {
    if i < |digits| && IsSymbol(digits[i]) then Value(digits[i]) else 0
  }

  lemma DigitsMean(digits: seq<Byte>, i: nat, digit: Byte)
    ensures DigitAt(digits, i, digit) <==> (i < |digits| ==> IsSymbol(digits[i])) && digit == ValueAt(digits, i)
    ensures ValueAt(digits, i) < 64
  {
    if i < |digits| {
      DigitMeans(digits[i], digit);
      if IsSymbol(digits[i]) {
        DigitMeans(digits[i], Value(digits[i]));
      }
    }
    hide IsDigit, IsSymbol, Value;
  }

  /** The four digits from a place on all stand for something. */
  ghost predicate SymbolsAt(digits: seq<Byte>, i: nat) {
    forall k :: i <= k < i + 4 && k < |digits| ==> IsSymbol(digits[k])
  }

  lemma WordMeans(digits: seq<Byte>, i: nat, a: Byte, b: Byte, c: Byte)
    ensures WordAt(digits, i, a, b, c) <==>
              && SymbolsAt(digits, i)
              && a == Byte0(ValueAt(digits, i), ValueAt(digits, i + 1)) && b == Byte1(ValueAt(digits, i + 1), ValueAt(digits, i + 2))
              && c == Byte2(ValueAt(digits, i + 2), ValueAt(digits, i + 3))
  {
    hide SameBits, IsSymbol, Byte0, Byte1, Byte2, DigitAt, ValueAt;
    var p, q, r, s := ValueAt(digits, i), ValueAt(digits, i + 1), ValueAt(digits, i + 2), ValueAt(digits, i + 3);
    DigitsMean(digits, i, p);
    DigitsMean(digits, i + 1, q);
    DigitsMean(digits, i + 2, r);
    DigitsMean(digits, i + 3, s);
    BytesAgree(p, q, r, s);
    if SymbolsAt(digits, i) {
      assert DigitAt(digits, i, p) && DigitAt(digits, i + 1, q) && DigitAt(digits, i + 2, r) && DigitAt(digits, i + 3, s);
    }
    if WordAt(digits, i, a, b, c) {
      var p', q', r', s' :| SameBits(a, b, c, p', q', r', s')
        && DigitAt(digits, i, p') && DigitAt(digits, i + 1, q') && DigitAt(digits, i + 2, r') && DigitAt(digits, i + 3, s');
      DigitsMean(digits, i, p');
      DigitsMean(digits, i + 1, q');
      DigitsMean(digits, i + 2, r');
      DigitsMean(digits, i + 3, s');
      BytesOfWord(a, b, c, p', q', r', s');
    }
  }

  function Behind(digits: seq<Byte>): seq<Byte> {
    if |digits| <= 4 then [] else digits[4..]
  }

  lemma {:induction false} FilledBehind(digits: seq<Byte>, stream: seq<Byte>)
    requires digits != []
    ensures Filled(digits, stream) <==>
              |stream| >= 3 && WordAt(digits, 0, stream[0], stream[1], stream[2]) && Filled(Behind(digits), stream[3..])
  {
    hide SameBits, IsDigit;
    var n := (|digits| + 3) / 4;
    assert (|Behind(digits)| + 3) / 4 == n - 1;
    if |stream| == 3 * n {
      forall g: nat | g < n - 1
        ensures WordAt(Behind(digits), 4 * g, stream[3..][3 * g], stream[3..][3 * g + 1], stream[3..][3 * g + 2])
           <==> WordAt(digits, 4 * (g + 1), stream[3 * (g + 1)], stream[3 * (g + 1) + 1], stream[3 * (g + 1) + 2])
      {
        SameWord(digits, 4 * g, stream[3 * (g + 1)], stream[3 * (g + 1) + 1], stream[3 * (g + 1) + 2]);
      }
      hide WordAt;
      if WordAt(digits, 0, stream[0], stream[1], stream[2]) && Filled(Behind(digits), stream[3..]) {
        forall g: nat | g < n ensures WordAt(digits, 4 * g, stream[3 * g], stream[3 * g + 1], stream[3 * g + 2]) {
          if g > 0 {
            assert WordAt(Behind(digits), 4 * (g - 1), stream[3..][3 * (g - 1)], stream[3..][3 * (g - 1) + 1], stream[3..][3 * (g - 1) + 2]);
          }
        }
      }
      if Filled(digits, stream) {
        assert WordAt(digits, 4 * 0, stream[3 * 0], stream[3 * 0 + 1], stream[3 * 0 + 2]);
        forall g: nat | g < n - 1
          ensures WordAt(Behind(digits), 4 * g, stream[3..][3 * g], stream[3..][3 * g + 1], stream[3..][3 * g + 2])
        {
          assert WordAt(digits, 4 * (g + 1), stream[3 * (g + 1)], stream[3 * (g + 1) + 1], stream[3 * (g + 1) + 2]);
        }
      }
    }
  }

  lemma SameWord(digits: seq<Byte>, i: nat, a: Byte, b: Byte, c: Byte)
    requires digits != []
    ensures WordAt(Behind(digits), i, a, b, c) <==> WordAt(digits, i + 4, a, b, c)
  {
    hide SameBits, IsDigit;
    forall k: nat, digit ensures DigitAt(Behind(digits), k, digit) <==> DigitAt(digits, k + 4, digit) {
    }
    hide DigitAt;
    assert i + 4 + 1 == i + 1 + 4 && i + 4 + 2 == i + 2 + 4 && i + 4 + 3 == i + 3 + 4;
  }

  function StreamOf(digits: seq<Byte>): seq<Byte>
    decreases |digits|
  {
    if digits == [] then [] else
    [Byte0(ValueAt(digits, 0), ValueAt(digits, 1)), Byte1(ValueAt(digits, 1), ValueAt(digits, 2)),
     Byte2(ValueAt(digits, 2), ValueAt(digits, 3))] + StreamOf(Behind(digits))
  }

  lemma {:induction false} FilledMeans(digits: seq<Byte>, stream: seq<Byte>)
    ensures Filled(digits, stream) <==> AllSymbols(digits) && stream == StreamOf(digits)
    decreases |digits|
  {
    hide IsSymbol, Byte0, Byte1, Byte2, ValueAt, WordAt;
    if digits != [] {
      FilledBehind(digits, stream);
      hide Filled;
      if |stream| >= 3 {
        FilledMeans(Behind(digits), stream[3..]);
        WordMeans(digits, 0, stream[0], stream[1], stream[2]);
        assert AllSymbols(digits) <==> SymbolsAt(digits, 0) && AllSymbols(Behind(digits)) by {
          SymbolsBehind(digits);
        }
        assert stream == [stream[0], stream[1], stream[2]] + stream[3..];
      }
    }
  }

  lemma SymbolsBehind(digits: seq<Byte>)
    ensures AllSymbols(digits) <==> SymbolsAt(digits, 0) && AllSymbols(Behind(digits))
  {
    hide IsSymbol;
    if SymbolsAt(digits, 0) && AllSymbols(Behind(digits)) {
      forall i | 0 <= i < |digits| ensures IsSymbol(digits[i]) {
        if i >= 4 {
          assert digits[i] == Behind(digits)[i - 4];
        }
      }
    }
  }

  ghost predicate Zeros(s: seq<Byte>) {
    forall k :: 0 <= k < |s| ==> s[k] == 0
  }

  lemma ShortStream(digits: seq<Byte>)
    requires AllSymbols(digits) && 1 <= |digits| <= 3
    ensures var m := 6 * |digits| / 8;
            |StreamOf(digits)| == 3 && Unpack(digits) == StreamOf(digits)[..m] && (LeftOver(digits) == 0 <==> Zeros(StreamOf(digits)[m..]))
  {
    hide IsSymbol, Value, Byte0, Byte1, Byte2;
    var p, q, r := ValueAt(digits, 0), ValueAt(digits, 1), ValueAt(digits, 2);
    DigitsMean(digits, 0, p);
    DigitsMean(digits, 1, q);
    DigitsMean(digits, 2, r);
    LastBits(p, q, r);
    assert StreamOf(Behind(digits)) == [];
    var s := StreamOf(digits);
    assert s == [Byte0(p, q), Byte1(q, r), Byte2(r, 0)];
    hide StreamOf;
    if |digits| == 1 {
      assert s[0..] == [s[0], s[1], s[2]] && Zeros(s[0..]) <==> s[0] == 0 && s[1] == 0 && s[2] == 0;
    } else if |digits| == 2 {
      assert s[1..] == [s[1], s[2]] && Zeros(s[1..]) <==> s[1] == 0 && s[2] == 0;
    } else {
      assert s[2..] == [s[2]] && Zeros(s[2..]) <==> s[2] == 0;
    }
  }

  lemma LastBits(p: Byte, q: Byte, r: Byte)
    requires p < 64 && q < 64 && r < 64
    ensures Byte0(p, 0) == 0 <==> p == 0
    ensures Byte1(q, 0) == 0 <==> q & 0xf == 0
    ensures Byte2(r, 0) == 0 <==> r & 0x3 == 0
    ensures Byte1(0, 0) == 0 && Byte2(0, 0) == 0
  {
  }

  lemma {:induction false} UnpackStreams(digits: seq<Byte>)
    requires AllSymbols(digits)
    ensures var m := 6 * |digits| / 8;
            |StreamOf(digits)| >= m && Unpack(digits) == StreamOf(digits)[..m] && (LeftOver(digits) == 0 <==> Zeros(StreamOf(digits)[m..]))
    decreases |digits|
  {
    hide IsSymbol, Value, Byte0, Byte1, Byte2;
    if digits == [] {
    } else if |digits| <= 3 {
      ShortStream(digits);
    } else {
      var rest, m := digits[4..], 6 * |digits[4..]| / 8;
      assert Behind(digits) == rest;
      UnpackStreams(rest);
      LeftOverSkipsGroup(digits);
      assert 6 * |digits| / 8 == m + 3;
      var s, t := StreamOf(digits), StreamOf(rest);
      assert s[3..] == t && s[m + 3..] == t[m..] && s[..m + 3] == s[..3] + t[..m];
      hide StreamOf, LeftOver;
      FirstGroup(digits);
    }
  }

  lemma FirstGroup(digits: seq<Byte>)
    requires |digits| >= 4 && AllSymbols(digits)
    ensures AllSymbols(digits[4..]) && Unpack(digits) == StreamOf(digits)[..3] + Unpack(digits[4..])
  {
    hide IsSymbol, Value, Byte0, Byte1, Byte2;
  }

  lemma {:induction false} LeadIs(text: seq<Byte>, n: nat)
    requires n <= |text| && AllSymbols(text[..n]) && (n < |text| ==> !IsSymbol(text[n]))
    ensures Lead(text) == n
  {
    hide IsSymbol;
    if n > 0 {
      assert text[0] == text[..n][0];
      assert text[1..][..n - 1] == text[..n][1..];
      LeadIs(text[1..], n - 1);
    }
  }

  /** The accumulating decoder, exactly. */
  lemma AccumulatorExactly(text: seq<Byte>, bytes: seq<Byte>)
    ensures Accumulated(text) == Some(bytes) <==> Streamed(text, bytes)
  {
    hide Lead, LeftOver, Unpack, StreamOf, Filled, IsSymbol;
    var n := Lead(text);
    var digits := text[..n];
    assert AllSymbols(digits);
    UnpackStreams(digits);
    FilledMeans(digits, StreamOf(digits));
    var stream, m := StreamOf(digits), 6 * n / 8;
    if Accumulated(text) == Some(bytes) {
      forall i | n <= i < |text| ensures text[i] == 0x3d {
        assert text[n..][i - n] == text[i];
      }
      forall k | m <= k < |stream| ensures stream[k] == 0 {
        assert stream[m..][k - m] == stream[k];
      }
    }
    if Streamed(text, bytes) {
      StreamedOnce(text, bytes);
    }
  }

  lemma StreamedOnce(text: seq<Byte>, bytes: seq<Byte>)
    requires Streamed(text, bytes)
    ensures Accumulated(text) == Some(bytes)
  {
    hide Lead, LeftOver, Unpack, StreamOf, Filled, IsSymbol;
    var n: nat, stream :| n <= |text| && (forall i :: n <= i < |text| ==> text[i] == 0x3d) && Filled(text[..n], stream)
         && 6 * n / 8 <= |stream| && bytes == stream[..6 * n / 8] && forall k :: 6 * n / 8 <= k < |stream| ==> stream[k] == 0;
    FilledMeans(text[..n], stream);
    PadIsNoSymbol();
    LeadIs(text, n);
    UnpackStreams(text[..n]);
    assert Zeros(stream[6 * n / 8..]);
    assert AllPads(text[n..]);
  }
}
