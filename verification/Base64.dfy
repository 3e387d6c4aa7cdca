/**
 * Base64 (section 4 of RFC 4648) as the program has it: one encoder, a decoder that works on groups of
 * four characters, and a decoder that shifts characters through a 32-bit accumulator.  Texts are
 * sequences of bytes.
 */
module Base64 {
  import opened Prelude

  type Byte = bv8

  const PAD: Byte := 0x3d

  /** The character that stands for a six-bit digit. */
  function Symbol(digit: Byte): Byte {
    if digit < 26 then digit + 0x41
    else if digit < 52 then digit - 26 + 0x61
    else if digit < 62 then digit - 52 + 0x30
    else if digit == 62 then 0x2b
    else 0x2f
  }

  predicate IsSymbol(c: Byte) {
    0x41 <= c <= 0x5a || 0x61 <= c <= 0x7a || 0x30 <= c <= 0x39 || c == 0x2b || c == 0x2f
  }

  /** The digit of a character of the alphabet. */
  function Value(c: Byte): (digit: Byte)
    requires IsSymbol(c)
    ensures digit < 64 && Symbol(digit) == c && c != PAD
  {
    if 0x41 <= c <= 0x5a then c - 0x41
    else if 0x61 <= c <= 0x7a then c - 0x61 + 26
    else if 0x30 <= c <= 0x39 then c - 0x30 + 52
    else if c == 0x2b then 62
    else 63
  }

  lemma SymbolHasValue(digit: Byte)
    requires digit < 64
    ensures IsSymbol(Symbol(digit)) && Value(Symbol(digit)) == digit && Symbol(digit) != PAD
  {
  }

  /* ---------- packing: three bytes are four digits ---------- */

  function Digit0(a: Byte): Byte { a >> 2 }
  function Digit1(a: Byte, b: Byte): Byte { ((a & 0x3) << 4) | (b >> 4) }
  function Digit2(b: Byte, c: Byte): Byte { ((b & 0xf) << 2) | (c >> 6) }
  function Digit3(c: Byte): Byte { c & 0x3f }

  function Byte0(p: Byte, q: Byte): Byte { (p << 2) | (q >> 4) }
  function Byte1(q: Byte, r: Byte): Byte { ((q & 0xf) << 4) | (r >> 2) }
  function Byte2(r: Byte, s: Byte): Byte { ((r & 0x3) << 6) | s }

  lemma PackingIsExact(a: Byte, b: Byte, c: Byte)
    ensures Byte0(Digit0(a), Digit1(a, b)) == a && Byte1(Digit1(a, b), Digit2(b, c)) == b && Byte2(Digit2(b, c), Digit3(c)) == c
    ensures Digit0(a) < 64 && Digit1(a, b) < 64 && Digit2(b, c) < 64 && Digit3(c) < 64
    ensures Digit1(a, 0) & 0xf == 0 && Digit2(b, 0) & 0x3 == 0
  {
  }

  lemma UnpackingIsExact(p: Byte, q: Byte, r: Byte, s: Byte)
    requires p < 64 && q < 64 && r < 64 && s < 64
    ensures Digit0(Byte0(p, q)) == p && Digit1(Byte0(p, q), Byte1(q, r)) == q
    ensures Digit2(Byte1(q, r), Byte2(r, s)) == r && Digit3(Byte2(r, s)) == s
    ensures q & 0xf == 0 ==> Digit1(Byte0(p, q), 0) == q
    ensures r & 0x3 == 0 ==> Digit2(Byte1(q, r), 0) == r
  {
  }

  /* ---------- the encoder ---------- */

  function Encode(bytes: seq<Byte>): seq<Byte> {
    if bytes == [] then []
    else if |bytes| <= 3 then Group(bytes)
    else Group(bytes[..3]) + Encode(bytes[3..])
  }

  /** The encoder as the program runs it: chunks of up to three bytes, widened to 32 bits. */
  method EncodeBase64(bytes: seq<Byte>) returns (text: seq<Byte>)
    ensures text == Encode(bytes)
  {
    hide Group, Encode;
    text := [];
    assert bytes[0..] == bytes;
    var i := 0;
    while i < |bytes|
      invariant 0 <= i <= |bytes| && (i % 3 == 0 || i == |bytes|)
      invariant text + Encode(bytes[i..]) == Encode(bytes)
    {
      var end := if i + 3 <= |bytes| then i + 3 else |bytes|;
      var chunk := bytes[i..end];
      var group := EncodeChunk(chunk);
      assert bytes[i..] == chunk + bytes[end..];
      GroupEncodes(chunk, bytes[end..]);
      assert text + (group + Encode(bytes[end..])) == (text + group) + Encode(bytes[end..]);
      text := text + group;
      i := end;
    }
    NothingEncodes(text);
  }

  /** One group, computed on words. */
  method EncodeChunk(chunk: seq<Byte>) returns (group: seq<Byte>)
    requires 1 <= |chunk| <= 3
    ensures group == Group(chunk)
  {
    var a := chunk[0] as bv32;
    var b: bv32 := if |chunk| > 1 then chunk[1] as bv32 else 0;
    var c: bv32 := if |chunk| > 2 then chunk[2] as bv32 else 0;
    WideDigits(chunk[0], if |chunk| > 1 then chunk[1] else 0, if |chunk| > 2 then chunk[2] else 0);
    var d0, d1 := Low((a >> 2) & 0x3f), Low(((a & 0x3) << 4) | (b >> 4));
    var d2, d3 := Low(((b & 0xf) << 2) | (c >> 6)), Low(c & 0x3f);
    hide Symbol, Digit0, Digit1, Digit2, Digit3, Low;
    group := [Symbol(d0), Symbol(d1), if |chunk| > 1 then Symbol(d2) else PAD, if |chunk| > 2 then Symbol(d3) else PAD];
  }

  /** The four characters of up to three bytes. */
  function Group(chunk: seq<Byte>): (text: seq<Byte>)
    requires 1 <= |chunk| <= 3
    ensures |text| == 4
  {
    var b: Byte := if |chunk| > 1 then chunk[1] else 0;
    var c: Byte := if |chunk| > 2 then chunk[2] else 0;
    [Symbol(Digit0(chunk[0])), Symbol(Digit1(chunk[0], b)),
     if |chunk| > 1 then Symbol(Digit2(b, c)) else PAD, if |chunk| > 2 then Symbol(Digit3(c)) else PAD]
  }

  lemma NothingEncodes(text: seq<Byte>)
    ensures text + Encode([]) == text
  {
  }

  /** The low eight bits of a word. */
  function Low(word: bv32): Byte {
    (word & 0xff) as bv8
  }

  lemma WideDigits(a: Byte, b: Byte, c: Byte)
    ensures var x, y, z := a as bv32, b as bv32, c as bv32;
            && Low((x >> 2) & 0x3f) == Digit0(a) && Low(((x & 0x3) << 4) | (y >> 4)) == Digit1(a, b)
            && Low(((y & 0xf) << 2) | (z >> 6)) == Digit2(b, c) && Low(z & 0x3f) == Digit3(c)
  {
  }

  lemma GroupEncodes(chunk: seq<Byte>, rest: seq<Byte>)
    requires 1 <= |chunk| <= 3 && (|chunk| < 3 ==> rest == [])
    ensures Encode(chunk + rest) == Group(chunk) + Encode(rest)
  {
    if rest == [] {
      assert chunk + rest == chunk && Group(chunk) + [] == Group(chunk);
    } else {
      assert (chunk + rest)[..3] == chunk && (chunk + rest)[3..] == rest;
    }
  }

  /* ---------- the decoder by groups ---------- */

  predicate IsGroup(text: seq<Byte>)
    requires |text| >= 4
  {
    IsSymbol(text[0]) && IsSymbol(text[1]) && (text[2] == PAD || IsSymbol(text[2])) && (text[3] == PAD || IsSymbol(text[3]))
  }

  function DigitOrZero(c: Byte): Byte
    requires c == PAD || IsSymbol(c)
  {
    if c == PAD then 0 else Value(c)
  }

  /** A padding character counts as zero and drops its byte, wherever the group stands. */
  function DecodeGroup(text: seq<Byte>): seq<Byte>
    requires |text| >= 4 && IsGroup(text)
  {
    var p, q, r, s := Value(text[0]), Value(text[1]), DigitOrZero(text[2]), DigitOrZero(text[3]);
    Keep(Byte0(p, q), Byte1(q, r), Byte2(r, s), text[2] != PAD, text[3] != PAD)
  }

  function Keep(first: Byte, second: Byte, third: Byte, keepSecond: bool, keepThird: bool): seq<Byte> {
    [first] + (if keepSecond then [second] else []) + (if keepThird then [third] else [])
  }

  function DecodeGroups(text: seq<Byte>): Option<seq<Byte>> {
    if text == [] then Some([])
    else if |text| < 4 || !IsGroup(text) then None
    else
      match DecodeGroups(text[4..])
      case None => None
      case Some(rest) => Some(DecodeGroup(text) + rest)
  }

  lemma {:induction false} RaggedIsRefused(text: seq<Byte>)
    requires |text| % 4 != 0
    ensures DecodeGroups(text) == None
  {
    if |text| >= 4 {
      RaggedIsRefused(text[4..]);
    }
  }

  method DecodeByGroups(text: seq<Byte>) returns (r: Option<seq<Byte>>)
    ensures r == DecodeGroups(text)
  {
    if |text| % 4 != 0 {
      RaggedIsRefused(text);
      return None;
    }
    hide IsSymbol, DecodeGroups;
    var output: seq<Byte> := [];
    assert text[0..] == text;
    NothingBefore(text);
    var i := 0;
    while i < |text|
      invariant 0 <= i <= |text| && i % 4 == 0
      invariant DecodeGroups(text) == Prefixed(output, DecodeGroups(text[i..]))
    {
      var chunk := text[i..i + 4];
      ghost var rest := text[i..];
      assert rest[..4] == chunk && rest[4..] == text[i + 4..];
      assert forall k :: 0 <= k < 4 ==> chunk[k] == rest[k];
      GroupStep(output, rest);
      if !IsGroup(chunk) {
        return None;
      }
      var bytes := DecodeOneGroup(chunk);
      output := output + bytes;
      i := i + 4;
    }
    NothingDecodes(output);
    return Some(output);
  }

  lemma DigitIsSmall(c: Byte)
    requires c == PAD || IsSymbol(c)
    ensures DigitOrZero(c) < 64
  {
    hide IsSymbol;
  }

  lemma GroupBytes(text: seq<Byte>)
    requires |text| >= 4 && IsGroup(text)
    ensures DecodeGroup(text)
         == Keep(Byte0(Value(text[0]), Value(text[1])), Byte1(Value(text[1]), DigitOrZero(text[2])),
              Byte2(DigitOrZero(text[2]), DigitOrZero(text[3])), text[2] != PAD, text[3] != PAD)
  {
    hide IsSymbol, Value, DigitOrZero, Byte0, Byte1, Byte2, Keep;
  }

  /** One group, computed on words. */
  method DecodeOneGroup(chunk: seq<Byte>) returns (bytes: seq<Byte>)
    requires |chunk| == 4 && IsGroup(chunk)
    ensures bytes == DecodeGroup(chunk)
  {
    DigitIsSmall(chunk[2]);
    DigitIsSmall(chunk[3]);
    GroupBytes(chunk);
    hide Byte0, Byte1, Byte2, Value, DigitOrZero, Keep, DecodeGroup;
    var first, second, third := JoinDigits(Value(chunk[0]), Value(chunk[1]), DigitOrZero(chunk[2]), DigitOrZero(chunk[3]));
    bytes := Collect(first, second, third, chunk[2] != PAD, chunk[3] != PAD);
  }

  /** Three bytes out of four digits, widened to 32 bits. */
  method JoinDigits(p: Byte, q: Byte, r: Byte, s: Byte) returns (first: Byte, second: Byte, third: Byte)
    requires p < 64 && q < 64 && r < 64 && s < 64
    ensures first == Byte0(p, q) && second == Byte1(q, r) && third == Byte2(r, s)
  {
    hide Byte0, Byte1, Byte2, Low;
    WideBytes(p, q, r, s);
    var a, b, c, d := p as bv32, q as bv32, r as bv32, s as bv32;
    first, second, third := Low((a << 2) | (b >> 4)), Low(((b & 0xf) << 4) | (c >> 2)), Low(((c & 0x3) << 6) | d);
  }

  method Collect(first: Byte, second: Byte, third: Byte, keepSecond: bool, keepThird: bool) returns (bytes: seq<Byte>)
    ensures bytes == Keep(first, second, third, keepSecond, keepThird)
  {
    bytes := [first];
    if keepSecond {
      bytes := bytes + [second];
    }
    if keepThird {
      bytes := bytes + [third];
    }
  }

  ghost function Prefixed(output: seq<Byte>, rest: Option<seq<Byte>>): Option<seq<Byte>> {
    match rest
    case None => None
    case Some(bytes) => Some(output + bytes)
  }

  lemma NothingBefore(text: seq<Byte>)
    ensures DecodeGroups(text) == Prefixed([], DecodeGroups(text))
  {
    if DecodeGroups(text).Some? {
      assert [] + DecodeGroups(text).value == DecodeGroups(text).value;
    }
  }

  lemma NothingDecodes(output: seq<Byte>)
    ensures Prefixed(output, DecodeGroups([])) == Some(output)
  {
    assert output + [] == output;
  }

  lemma GroupStep(output: seq<Byte>, text: seq<Byte>)
    requires |text| >= 4
    ensures !IsGroup(text) ==> Prefixed(output, DecodeGroups(text)) == None
    ensures IsGroup(text) ==>
              Prefixed(output, DecodeGroups(text)) == Prefixed(output + DecodeGroup(text), DecodeGroups(text[4..]))
  {
    hide IsGroup, DecodeGroup;
    if IsGroup(text) && DecodeGroups(text[4..]).Some? {
      var rest := DecodeGroups(text[4..]).value;
      assert output + (DecodeGroup(text) + rest) == (output + DecodeGroup(text)) + rest;
    }
  }

  lemma WideBytes(p: Byte, q: Byte, r: Byte, s: Byte)
    requires p < 64 && q < 64 && r < 64 && s < 64
    ensures var x, y, z, w := p as bv32, q as bv32, r as bv32, s as bv32;
            && Low((x << 2) | (y >> 4)) == Byte0(p, q) && Low(((y & 0xf) << 4) | (z >> 2)) == Byte1(q, r)
            && Low(((z & 0x3) << 6) | w) == Byte2(r, s)
  {
  }

  /* ---------- the decoder with an accumulator ---------- */

  /** The number of alphabet characters a text starts with. */
  function Lead(text: seq<Byte>): (n: nat)
    ensures n <= |text| && (forall i :: 0 <= i < n ==> IsSymbol(text[i])) && (n < |text| ==> !IsSymbol(text[n]))
  {
    if text == [] || !IsSymbol(text[0]) then 0 else 1 + Lead(text[1..])
  }

  ghost predicate AllSymbols(text: seq<Byte>) {
    forall i :: 0 <= i < |text| ==> IsSymbol(text[i])
  }

  ghost predicate AllPads(text: seq<Byte>) {
    forall i :: 0 <= i < |text| ==> text[i] == PAD
  }

  /** The whole bytes contained in a run of digits: six bits each, what is left over is dropped. */
  ghost function Unpack(digits: seq<Byte>): seq<Byte>
    requires AllSymbols(digits)
  {
    if |digits| < 2 then []
    else if |digits| == 2 then [Byte0(Value(digits[0]), Value(digits[1]))]
    else if |digits| == 3 then
      [Byte0(Value(digits[0]), Value(digits[1])), Byte1(Value(digits[1]), Value(digits[2]))]
    else
      [Byte0(Value(digits[0]), Value(digits[1])), Byte1(Value(digits[1]), Value(digits[2])),
       Byte2(Value(digits[2]), Value(digits[3]))] + Unpack(digits[4..])
  }

  /** The bits left over: none, six, four or two of the last digit. */
  ghost function LeftOver(digits: seq<Byte>): Byte
    requires AllSymbols(digits)
  {
    if |digits| % 4 == 0 then 0
    else
      var last := Value(digits[|digits| - 1]);
      if |digits| % 4 == 1 then last else if |digits| % 4 == 2 then last & 0xf else last & 0x3
  }

  /** What the accumulating decoder accepts: digits, then only padding; a multiple of four; no bits left over. */
  ghost function Accumulated(text: seq<Byte>): Option<seq<Byte>> {
    var digits := text[..Lead(text)];
    if AllPads(text[Lead(text)..]) && |text| % 4 == 0 && LeftOver(digits) == 0 then Some(Unpack(digits)) else None
  }

  /** The bytes that one more digit completes. */
  ghost function Completed(digits: seq<Byte>, c: Byte): seq<Byte>
    requires AllSymbols(digits) && IsSymbol(c)
  {
    if |digits| % 4 == 0 then [] else
    var last := Value(digits[|digits| - 1]);
    if |digits| % 4 == 1 then [Byte0(last, Value(c))]
    else if |digits| % 4 == 2 then [Byte1(last, Value(c))]
    else [Byte2(last, Value(c))]
  }

  lemma {:induction false} UnpackAppend(digits: seq<Byte>, c: Byte)
    requires AllSymbols(digits) && IsSymbol(c)
    ensures AllSymbols(digits + [c]) && Unpack(digits + [c]) == Unpack(digits) + Completed(digits, c)
  {
    hide IsSymbol, Value, Byte0, Byte1, Byte2;
    if |digits| >= 4 {
      UnpackAppend(digits[4..], c);
      assert (digits + [c])[4..] == digits[4..] + [c];
    }
  }

  ghost function PendingBits(count: nat): bv8 {
    if count % 4 == 0 then 0 else if count % 4 == 1 then 6 else if count % 4 == 2 then 4 else 2
  }

  /** The accumulator holds the left-over bits in its low end; above them it holds what it has not yet lost. */
  predicate Holds(accumulator: bv32, bits: bv8, left: Byte) {
    bits in {0, 2, 4, 6} && accumulator & ((1 << bits) - 1) == left as bv32
  }

  /** What shifting in a digit does to the bits that are held. */
  ghost predicate Shifted(bits: bv8, left: Byte, digit: Byte, next: bv32, rest: bv8, out: seq<Byte>) {
    (bits == 0 ==> rest == 6 && Holds(next, 6, digit) && out == [])
    && (bits == 6 ==> rest == 4 && Holds(next, 4, digit & 0xf) && out == [Byte0(left, digit)])
    && (bits == 4 ==> rest == 2 && Holds(next, 2, digit & 0x3) && out == [Byte1(left, digit)])
    && (bits == 2 ==> rest == 0 && Holds(next, 0, 0) && out == [Byte2(left, digit)])
  }

  /** One digit goes in; a whole byte comes out when there is one. */
  method ShiftIn(accumulator: bv32, bits: bv8, digit: Byte, ghost left: Byte)
    returns (next: bv32, rest: bv8, out: seq<Byte>)
    requires Holds(accumulator, bits, left) && digit < 64
    ensures Shifted(bits, left, digit, next, rest, out)
  {
    next := (accumulator << 6) | digit as bv32;
    rest := bits + 6;
    out := [];
    while rest >= 8
      invariant rest == bits + 6 || (rest == bits - 2 && bits > 0)
      invariant out == if rest == bits + 6 then [] else [Low(next >> rest)]
      decreases rest
    {
      rest := rest - 8;
      out := out + [Low(next >> rest)];
    }
  }

  /** The decoder as the program runs it: the accumulator wraps at 32 bits and is never cleared. */
  method DecodeByAccumulator(text: seq<Byte>) returns (r: Option<seq<Byte>>)
    ensures r == Accumulated(text)
  {
    hide IsSymbol, Value, Byte0, Byte1, Byte2, Unpack, Holds, Shifted, LeftOver;
    var output: seq<Byte> := [];
    var accumulator: bv32 := 0;
    var bits: bv8 := 0;
    var padding := false;
    ghost var n := Lead(text);
    NothingHeld();
    PadIsNoSymbol();
    for i := 0 to |text|
      invariant padding == (i > n) && forall j :: n <= j < i ==> text[j] == PAD
      invariant Consumed(text[..if i < n then i else n], accumulator, bits, output)
    {
      if text[i] == PAD {
        assert i >= n;
        padding := true;
        continue;
      }
      if padding {
        assert text[n..][i - n] != PAD;
        return None;
      }
      if !IsSymbol(text[i]) {
        assert text[n..][0] != PAD;
        return None;
      }
      var out;
      ghost var digits, held, count := text[..i], accumulator, bits;
      assert text[..i + 1] == digits + [text[i]];
      accumulator, bits, out := ShiftIn(accumulator, bits, Value(text[i]), LeftOver(digits));
      DigitConsumed(digits, text[i], held, count, output, accumulator, bits, out);
      output := output + out;
    }
    assert AllPads(text[n..]);
    LeftOverHeld(text[..n], accumulator, bits);
    if bits > 0 && accumulator & ((1 << bits) - 1) != 0 {
      return None;
    }
    if |text| % 4 != 0 && text != [] {
      return None;
    }
    return Some(output);
  }

  /** The state of the accumulating decoder after a run of digits. */
  ghost predicate Consumed(digits: seq<Byte>, accumulator: bv32, bits: bv8, output: seq<Byte>) {
    AllSymbols(digits) && output == Unpack(digits) && bits == PendingBits(|digits|) && Holds(accumulator, bits, LeftOver(digits))
  }

  lemma NothingHeld()
    ensures Consumed([], 0, 0, [])
  {
  }

  lemma PadIsNoSymbol()
    ensures !IsSymbol(PAD)
  {
  }

  lemma DigitConsumed(
      digits: seq<Byte>, c: Byte, held: bv32, count: bv8, output: seq<Byte>, next: bv32, rest: bv8, out: seq<Byte>)
    requires Consumed(digits, held, count, output) && IsSymbol(c) && Shifted(count, LeftOver(digits), Value(c), next, rest, out)
    ensures Consumed(digits + [c], next, rest, output + out)
  {
    hide IsSymbol, Value, Byte0, Byte1, Byte2, Unpack, Holds, LeftOver;
    UnpackAppend(digits, c);
    LeftOverAppend(digits, c);
    CompletedIsShiftedOut(digits, c);
    assert output + out == Unpack(digits + [c]);
  }

  lemma LeftOverAppend(digits: seq<Byte>, c: Byte)
    requires AllSymbols(digits) && IsSymbol(c)
    ensures AllSymbols(digits + [c])
    ensures LeftOver(digits + [c]) == match |digits| % 4 case 0 => Value(c) case 1 => Value(c) & 0xf case 2 => Value(c) & 0x3 case _ => 0
    ensures PendingBits(|digits| + 1) == match |digits| % 4 case 0 => 6 case 1 => 4 case 2 => 2 case _ => 0
  {
    hide IsSymbol, Value;
    assert (digits + [c])[|digits|] == c;
  }

  /** A byte made of the last digit is a byte made of its left-over bits. */
  lemma CompletedIsShiftedOut(digits: seq<Byte>, c: Byte)
    requires AllSymbols(digits) && IsSymbol(c)
    ensures Completed(digits, c)
         == match |digits| % 4
            case 0 => []
            case 1 => [Byte0(LeftOver(digits), Value(c))]
            case 2 => [Byte1(LeftOver(digits), Value(c))]
            case _ => [Byte2(LeftOver(digits), Value(c))]
  {
    hide IsSymbol, Value;
  }

  lemma LeftOverHeld(digits: seq<Byte>, accumulator: bv32, bits: bv8)
    requires AllSymbols(digits) && bits == PendingBits(|digits|) && Holds(accumulator, bits, LeftOver(digits))
    ensures (bits > 0 && accumulator & ((1 << bits) - 1) != 0) <==> LeftOver(digits) != 0
  {
    hide IsSymbol, Value;
  }

  /* ---------- the two decoders and the encoder ---------- */

  lemma LeadSkipsSymbol(text: seq<Byte>)
    requires text != [] && IsSymbol(text[0])
    ensures Lead(text) == 1 + Lead(text[1..])
  {
  }

  lemma LeadSkipsGroup(text: seq<Byte>)
    requires |text| >= 4 && AllSymbols(text[..4])
    ensures Lead(text) == 4 + Lead(text[4..])
  {
    hide Lead, IsSymbol;
    var t := text[..4];
    assert t[0] == text[0] && t[1] == text[1] && t[2] == text[2] && t[3] == text[3];
    LeadSkipsSymbol(text);
    LeadSkipsSymbol(text[1..]);
    LeadSkipsSymbol(text[2..]);
    LeadSkipsSymbol(text[3..]);
    assert text[1..][1..] == text[2..] && text[2..][1..] == text[3..] && text[3..][1..] == text[4..];
  }

  lemma FullGroupBytes(digits: seq<Byte>)
    requires |digits| >= 4 && AllSymbols(digits[..4])
    ensures IsGroup(digits)
    ensures DecodeGroup(digits)
         == [Byte0(Value(digits[0]), Value(digits[1])), Byte1(Value(digits[1]), Value(digits[2])),
             Byte2(Value(digits[2]), Value(digits[3]))]
  {
    hide IsSymbol, Value, Byte0, Byte1, Byte2;
    PadIsNoSymbol();
    var t := digits[..4];
    assert t[0] == digits[0] && t[1] == digits[1] && t[2] == digits[2] && t[3] == digits[3];
  }

  lemma LeftOverSkipsGroup(digits: seq<Byte>)
    requires |digits| >= 4 && AllSymbols(digits)
    ensures AllSymbols(digits[4..]) && LeftOver(digits) == LeftOver(digits[4..])
  {
    hide IsSymbol, Value;
    if |digits| > 4 {
      assert digits[|digits| - 1] == digits[4..][|digits| - 5];
    }
  }

  lemma UnpackGroup(digits: seq<Byte>)
    requires |digits| >= 4 && AllSymbols(digits)
    ensures IsGroup(digits) && AllSymbols(digits[4..])
    ensures Unpack(digits) == DecodeGroup(digits) + Unpack(digits[4..])
  {
    hide IsSymbol, Value, Byte0, Byte1, Byte2, DecodeGroup, IsGroup;
    FullGroupBytes(digits);
  }

  /** A group without padding decodes on its own, and the accumulator forgets it. */
  lemma FullGroup(text: seq<Byte>)
    requires |text| >= 4 && AllSymbols(text[..4])
    ensures IsGroup(text)
    ensures Accumulated(text)
         == match Accumulated(text[4..]) case None => None case Some(bytes) => Some(DecodeGroup(text) + bytes)
  {
    hide IsSymbol, Value, Byte0, Byte1, Byte2, Lead, Unpack, LeftOver;
    var rest := text[4..];
    LeadSkipsGroup(text);
    var digits := text[..Lead(text)];
    assert digits[4..] == rest[..Lead(rest)] && text[Lead(text)..] == rest[Lead(rest)..];
    assert AllSymbols(digits);
    UnpackGroup(digits);
    LeftOverSkipsGroup(digits);
    assert digits[0] == text[0] && digits[1] == text[1] && digits[2] == text[2] && digits[3] == text[3];
    assert DecodeGroup(digits) == DecodeGroup(text);
  }

  /** The last group of a text: alphabet characters, then padding. */
  lemma LastGroup(text: seq<Byte>)
    requires |text| == 4 && IsGroup(text) && !AllSymbols(text)
    ensures Accumulated(text).Some? ==> Accumulated(text).value == DecodeGroup(text)
    ensures Accumulated(text).Some? <==>
              text[3] == PAD && LeftOver(if text[2] == PAD then text[..2] else text[..3]) == 0
  {
    hide Value, Byte0, Byte1, Byte2, IsSymbol, LeftOver, Lead;
    PadIsNoSymbol();
    var n := Lead(text);
    if text[2] == PAD {
      LeadSkipsSymbol(text);
      LeadSkipsSymbol(text[1..]);
      assert text[1..][1..] == text[2..] && text[2..][0] == PAD;
      assert n == 2;
      assert text[n..][1] == text[3];
    } else {
      assert text[3] == PAD;
    }
  }

  /** A group of the encoder: its characters, its padding, and that nothing is left over. */
  lemma GroupDecodes(chunk: seq<Byte>)
    requires 1 <= |chunk| <= 3
    ensures var text := Group(chunk);
            && IsGroup(text) && DecodeGroup(text) == chunk
            && (|chunk| == 3 ==> AllSymbols(text))
            && (|chunk| < 3 ==> text[3] == PAD && LeftOver(if text[2] == PAD then text[..2] else text[..3]) == 0)
  {
    var a := chunk[0];
    var b: Byte := if |chunk| > 1 then chunk[1] else 0;
    var c: Byte := if |chunk| > 2 then chunk[2] else 0;
    PackingIsExact(a, b, c);
    SymbolHasValue(Digit0(a));
    SymbolHasValue(Digit1(a, b));
    SymbolHasValue(Digit2(b, c));
    SymbolHasValue(Digit3(c));
    hide IsSymbol, Value, Symbol, Digit0, Digit1, Digit2, Digit3, Byte0, Byte1, Byte2;
    PadIsNoSymbol();
  }

  /** A group that leaves no bits over is the encoding of its bytes. */
  lemma GroupIsCanonical(text: seq<Byte>)
    requires |text| == 4 && IsGroup(text)
    requires AllSymbols(text) || (text[3] == PAD && LeftOver(if text[2] == PAD then text[..2] else text[..3]) == 0)
    ensures 1 <= |DecodeGroup(text)| <= 3 && Group(DecodeGroup(text)) == text
    ensures AllSymbols(text) <==> |DecodeGroup(text)| == 3
  {
    PadIsNoSymbol();
    UnpackingIsExact(Value(text[0]), Value(text[1]), DigitOrZero(text[2]), DigitOrZero(text[3]));
    hide IsSymbol, Value, Symbol, Digit0, Digit1, Digit2, Digit3, Byte0, Byte1, Byte2;
  }

  lemma OneGroupDecodes(text: seq<Byte>)
    requires |text| == 4 && IsGroup(text)
    ensures DecodeGroups(text) == Some(DecodeGroup(text))
  {
    hide IsGroup, DecodeGroup;
    assert DecodeGroups(text[4..]) == Some([]);
    assert DecodeGroup(text) + [] == DecodeGroup(text);
  }

  /** Both decoders invert the encoder, on every sequence of bytes. */
  lemma {:induction false} DecodersInvertEncoder(bytes: seq<Byte>)
    ensures DecodeGroups(Encode(bytes)) == Some(bytes)
    ensures Accumulated(Encode(bytes)) == Some(bytes)
  {
    hide IsGroup, DecodeGroup, Group, Accumulated, DecodeGroups, Lead, LeftOver;
    if bytes == [] {
      NothingAccumulates();
    } else if |bytes| < 3 {
      ShortRoundTrip(bytes);
    } else {
      var chunk, rest := bytes[..3], bytes[3..];
      DecodersInvertEncoder(rest);
      GroupDecodes(chunk);
      GroupEncodes(chunk, rest);
      assert chunk + rest == bytes;
      var text := Group(chunk) + Encode(rest);
      assert text[..4] == Group(chunk) && text[4..] == Encode(rest);
      SameGroup(Group(chunk), text);
      FullGroup(text);
      GroupsStep(text);
    }
  }

  lemma NothingAccumulates()
    ensures DecodeGroups([]) == Some([]) && Accumulated([]) == Some([])
  {
  }

  lemma ShortRoundTrip(bytes: seq<Byte>)
    requires 1 <= |bytes| <= 2
    ensures DecodeGroups(Encode(bytes)) == Some(bytes) && Accumulated(Encode(bytes)) == Some(bytes)
  {
    hide IsGroup, DecodeGroup, Accumulated, DecodeGroups, LeftOver, IsSymbol, Symbol, Digit0, Digit1, Digit2, Digit3;
    var text := Group(bytes);
    GroupDecodes(bytes);
    OneGroupDecodes(text);
    PadIsNoSymbol();
    LastGroup(text);
  }

  lemma SameGroup(group: seq<Byte>, text: seq<Byte>)
    requires |group| == 4 && |text| >= 4 && text[..4] == group
    ensures IsGroup(group) <==> IsGroup(text)
    ensures IsGroup(group) ==> DecodeGroup(group) == DecodeGroup(text)
  {
    assert group[0] == text[0] && group[1] == text[1] && group[2] == text[2] && group[3] == text[3];
  }

  lemma GroupsStep(text: seq<Byte>)
    requires |text| >= 4 && IsGroup(text)
    ensures DecodeGroups(text)
         == match DecodeGroups(text[4..]) case None => None case Some(rest) => Some(DecodeGroup(text) + rest)
  {
    hide IsGroup, DecodeGroup;
  }

  /**
   * Text that both decoders accept is exactly the encoding of their common output; so the decoder by
   * groups is strict on a text precisely when the accumulating decoder accepts it as well.
   */
  lemma {:induction false} AgreementIsCanonical(text: seq<Byte>)
    requires DecodeGroups(text).Some?
    ensures Accumulated(text).Some? <==> Encode(DecodeGroups(text).value) == text
    ensures Accumulated(text).Some? ==> Accumulated(text) == DecodeGroups(text)
  {
    DecodersInvertEncoder(DecodeGroups(text).value);
    if Accumulated(text).Some? {
      AcceptedTwice(text);
    }
  }

  lemma {:induction false} AcceptedTwice(text: seq<Byte>)
    requires DecodeGroups(text).Some? && Accumulated(text).Some?
    ensures Accumulated(text) == DecodeGroups(text) && Encode(DecodeGroups(text).value) == text
  {
    hide DecodeGroup, IsGroup, Group, LeftOver, Accumulated, Lead, IsSymbol, Encode;
    if text == [] {
      NothingAccumulates();
      EncodesToNothing();
    } else {
      var group, rest := text[..4], text[4..];
      SameGroup(group, text);
      assert group + rest == text;
      GroupsStep(text);
      if AllSymbols(group) {
        FullGroup(text);
        AcceptedTwice(rest);
        GroupIsCanonical(group);
        GroupEncodes(DecodeGroup(group), DecodeGroups(rest).value);
      } else {
        PaddingEnds(text);
        assert group == text;
        OneGroupDecodes(text);
        LastGroup(text);
        GroupIsCanonical(text);
        GroupEncodes(DecodeGroup(text), []);
        EncodesToNothing();
        assert DecodeGroup(text) + [] == DecodeGroup(text);
        assert Group(DecodeGroup(text)) + [] == Group(DecodeGroup(text));
      }
    }
  }

  lemma EncodesToNothing()
    ensures Encode([]) == []
  {
  }

  /** The accumulating decoder allows padding only at the end, the decoder by groups only within a group. */
  lemma PaddingEnds(text: seq<Byte>)
    requires |text| >= 4 && !AllSymbols(text[..4]) && DecodeGroups(text).Some? && Accumulated(text).Some?
    ensures |text| == 4
  {
    hide IsSymbol, LeftOver, Unpack, DecodeGroup, Lead;
    PadIsNoSymbol();
  }

  /** Each decoder alone accepts texts that the encoder never writes. */
  lemma EachDecoderAloneIsLooser()
    ensures DecodeGroups([0x41, 0x42, PAD, PAD]) == Some([0]) && Accumulated([0x41, 0x42, PAD, PAD]) == None
    ensures Accumulated([PAD, PAD, PAD, PAD]) == Some([]) && DecodeGroups([PAD, PAD, PAD, PAD]) == None
    ensures Encode([0]) == [0x41, 0x41, PAD, PAD] && Encode([]) == []
  {
    var text: seq<Byte> := [0x41, 0x42, PAD, PAD];
    assert DecodeGroup(text) == [0];
    OneGroupDecodes(text);
    assert text[..2] == [0x41, 0x42] && Value(0x42) == 1;
    LastGroup(text);
    var pads: seq<Byte> := [PAD, PAD, PAD, PAD];
    assert Lead(pads) == 0 && pads[..0] == [] && pads[0..] == pads;
  }
}
